/**
 * What the engine does with a dirty hive, one whose two header sequence
 * numbers disagree: replay the transaction logs, go on without them, or
 * abort. Reading the logs and replaying them is the hive library's work;
 * this module decides which of those happens and what is logged.
 */
module Recovery {
  import opened Wrappers
  import opened Registry
  import opened Logging

  /** A file read by the raw-copy utility: the name it was asked for and its bytes. */
  datatype RawFile = RawFile(inputName: string, contents: seq<byte>)

  /** A transaction log handed to the replay as bytes (TransactionLogFileInfo). */
  datatype TransactionLog = TransactionLog(fileName: string, contents: seq<byte>)

  /**
   * How the hive was opened: directly, or, because another process holds it,
   * through the raw-copy utility, which reads the hive first and then each
   * of its log files.
   */
  datatype Acquisition =
    | Opened
    | Locked(isAdministrator: bool, hive: RawFile, logs: seq<RawFile>)

  /** The raw-copied files, hive first; null when the hive was opened directly. */
  function CopiedFiles(a: Acquisition): (files: Option<seq<RawFile>>)
    ensures files.Some? <==> a.Locked?
    ensures files.Some? ==> |files.value| == 1 + |a.logs| && files.value[0] == a.hive && files.value[1..] == a.logs
  {
    if a.Locked? then Some([a.hive] + a.logs) else None
  }

  datatype Recovery =
    | Clean                                      // sequence numbers agree
    | Unreplayed                                 // dirty, decoded as it is
    | ReplayBuffers(logs: seq<TransactionLog>)   // dirty, replay the raw-copied logs
    | ReplayFiles(paths: seq<string>)            // dirty, replay the logs from disk
    | Abort                                      // dirty, no logs, replay required

  datatype Decision = Decision(recovery: Recovery, log: seq<LogEntry>)

  /** `Skip(1)` */
  function SkipFirst<T>(s: seq<T>): (r: seq<T>)
    ensures s != [] ==> [s[0]] + r == s
    ensures s == [] ==> r == []
  {
    if s == [] then [] else s[1..]
  }

  function AsTransactionLogs(files: seq<RawFile>): (logs: seq<TransactionLog>)
    ensures |logs| == |files|
    ensures forall i :: 0 <= i < |files| ==> logs[i] == TransactionLog(files[i].inputName, files[i].contents)
  {
    seq(|files|, i requires 0 <= i < |files| => TransactionLog(files[i].inputName, files[i].contents))
  }

  /**
   * The dirty-hive decision. `diskLogs` are the files named like the hive
   * plus `.LOG` and one more character found beside it; `noLogs` asks not to
   * replay; `rawFiles` are the raw-copied files when the hive was locked.
   */
  function DecideRecovery(primary: int, secondary: int, diskLogs: seq<string>, noLogs: bool,
                          rawFiles: Option<seq<RawFile>>): (d: Decision)
    ensures d.recovery.Clean? <==> primary == secondary
    ensures d.recovery.Abort? <==> primary != secondary && diskLogs == [] && !noLogs
    ensures d.recovery.Unreplayed? <==> primary != secondary && noLogs
    ensures d.recovery.ReplayBuffers? <==> primary != secondary && diskLogs != [] && !noLogs && rawFiles.Some?
    ensures d.recovery.ReplayFiles? <==> primary != secondary && diskLogs != [] && !noLogs && rawFiles.None?
    ensures d.recovery.ReplayFiles? ==> d.recovery.paths == diskLogs
    ensures d.recovery.ReplayBuffers? ==> d.recovery.logs == AsTransactionLogs(SkipFirst(rawFiles.value))
    // one warning exactly when the hive is dirty and is not replayed
    ensures |d.log| <= 1
    ensures d.log != [] <==> primary != secondary && (noLogs || diskLogs == [])
    ensures d.recovery.Abort? ==> d.log == [DirtyNoLogsAbort]
    ensures d.recovery.Unreplayed? ==> d.log == [if diskLogs == [] then DirtyNoLogsContinue else DirtyLogsIgnored]
  {
    if primary == secondary then
      Decision(Clean, [])
    else if diskLogs == [] then
      if !noLogs then Decision(Abort, [DirtyNoLogsAbort])
      else Decision(Unreplayed, [DirtyNoLogsContinue])
    else if !noLogs then
      if rawFiles.Some? then Decision(ReplayBuffers(AsTransactionLogs(SkipFirst(rawFiles.value))), [])
      else Decision(ReplayFiles(diskLogs), [])
    else
      Decision(Unreplayed, [DirtyLogsIgnored])
  }

  /** A locked hive is replayed from every raw-copied file but the first: the logs, not the hive. */
  lemma ReplayOmitsHive(primary: int, secondary: int, diskLogs: seq<string>, a: Acquisition)
    requires primary != secondary && diskLogs != [] && a.Locked?
    ensures DecideRecovery(primary, secondary, diskLogs, false, CopiedFiles(a)).recovery
            == ReplayBuffers(AsTransactionLogs(a.logs))
  {
    assert SkipFirst([a.hive] + a.logs) == a.logs;
  }

  /** A clean hive is decoded the same way whatever the replay flag and the logs on disk. */
  lemma CleanIgnoresLogsAndFlag(seqNumber: int, diskLogs: seq<string>, noLogs: bool,
                                rawFiles: Option<seq<RawFile>>)
    ensures DecideRecovery(seqNumber, seqNumber, diskLogs, noLogs, rawFiles) == Decision(Clean, [])
  {
  }
}
