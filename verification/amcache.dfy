/**
 * The `AmcacheOld` engine: open the hive (through the raw-copy utility when
 * another process holds it), decide what to do when it is dirty, then read
 * the Programs entries and the File entries into three public results.
 */
module Amcache {
  import opened Wrappers
  import opened Registry
  import opened Logging
  import opened Entries
  import opened Staging
  import opened Recovery
  import opened ProgramDecoder
  import opened FileDecoder
  import opened Linker

  /**
   * Everything the engine learns from the file system and the hive library:
   * how the hive was opened, the two header sequence numbers, the transaction
   * logs found beside it, the key tree as stored, and the key tree after
   * replaying the logs (None when the replay throws).
   */
  datatype HiveSnapshot = HiveSnapshot(
    hivePath: string,
    acquisition: Acquisition,
    primarySequence: int,
    secondarySequence: int,
    diskLogs: seq<string>,
    asStored: Tree,
    replayed: Option<Tree>)

  /** The exceptions that escape the constructor. */
  datatype Fatal =
    | PermissionDenied  // the hive is locked and the process is not elevated
    | RecoveryAborted   // dirty, no transaction logs, and replay not waived
    | ReplayFailed      // the hive library could not replay the logs

  /** The tree to decode, or why there is none, and the lines written while opening. */
  datatype Opening = Opening(tree: Result<Tree, Fatal>, log: seq<LogEntry>)

  /** Opening the hive and settling its dirty state, up to the point where its keys are read. */
  function OpenHive(h: HiveSnapshot, noLogs: bool): (o: Opening)
    ensures o.tree == Failure(PermissionDenied) <==> h.acquisition.Locked? && !h.acquisition.isAdministrator
    ensures o.tree == Failure(RecoveryAborted) <==>
              !(h.acquisition.Locked? && !h.acquisition.isAdministrator) &&
              h.primarySequence != h.secondarySequence && h.diskLogs == [] && !noLogs
    ensures o.tree.Success? && h.primarySequence == h.secondarySequence ==> o.tree.value == h.asStored
    ensures o.tree.Success? && h.primarySequence != h.secondarySequence && !noLogs ==>
              h.replayed.Some? && o.tree.value == h.replayed.value
    ensures o.tree.Success? && noLogs ==> o.tree.value == h.asStored
    ensures o.tree == Failure(ReplayFailed) <==>
              !(h.acquisition.Locked? && !h.acquisition.isAdministrator) &&
              h.primarySequence != h.secondarySequence && h.diskLogs != [] && !noLogs && h.replayed.None?
    ensures h.acquisition.Locked? && !h.acquisition.isAdministrator ==> o.log == []
    ensures !(h.acquisition.Locked? && !h.acquisition.isAdministrator) ==>
              o.log == (if h.acquisition.Locked? then [InUseRerouting(h.hivePath)] else []) +
                       DecideRecovery(h.primarySequence, h.secondarySequence, h.diskLogs, noLogs,
                                      CopiedFiles(h.acquisition)).log
  {
    var a := h.acquisition;
    if a.Locked? && !a.isAdministrator then Opening(Failure(PermissionDenied), [])
    else
      var rerouted := if a.Locked? then [InUseRerouting(h.hivePath)] else [];
      var d := DecideRecovery(h.primarySequence, h.secondarySequence, h.diskLogs, noLogs, CopiedFiles(a));
      var log := rerouted + d.log;
      match d.recovery
      case Abort => Opening(Failure(RecoveryAborted), log)
      case Clean => Opening(Success(h.asStored), log)
      case Unreplayed => Opening(Success(h.asStored), log)
      case _ =>
        if h.replayed.None? then Opening(Failure(ReplayFailed), log)
        else Opening(Success(h.replayed.value), log)
  }

  /** The three public results of a constructed `AmcacheOld`. */
  datatype Output = Output(programs: seq<ProgramEntry>, unassociated: seq<FileEntry>, total: nat)

  /** What the constructor produces from a snapshot: the results or the exception, and the log. */
  datatype Run = Run(result: Result<Output, Fatal>, log: seq<LogEntry>)

  /** The constructor from a snapshot, after the lines `log0` the process has already written. */
  function Engine(h: HiveSnapshot, noLogs: bool, log0: seq<LogEntry>): Run {
    var o := OpenHive(h, noLogs);
    match o.tree
    case Failure(e) => Run(Failure(e), log0 + o.log)
    case Success(tree) =>
      var s := ScanTree(tree, log0 + o.log);
      Run(Success(Output(s.programs, s.unassociated, s.total)), s.log)
  }

  /** A clean hive is read the same way whether or not replay was waived. */
  lemma CleanHiveIgnoresReplayFlag(h: HiveSnapshot, log0: seq<LogEntry>)
    requires h.primarySequence == h.secondarySequence
    ensures Engine(h, true, log0) == Engine(h, false, log0)
    ensures Engine(h, false, log0).result.Success? <==> !(h.acquisition.Locked? && !h.acquisition.isAdministrator)
  {
  }

  /**
   * A dirty hive with no transaction logs beside it, when replay was not
   * waived, ends the constructor after one warning and reads nothing.
   */
  lemma DirtyWithoutLogsAborts(h: HiveSnapshot, log0: seq<LogEntry>)
    requires !(h.acquisition.Locked? && !h.acquisition.isAdministrator)
    requires h.primarySequence != h.secondarySequence && h.diskLogs == []
    ensures Engine(h, false, log0).result == Failure(RecoveryAborted)
    ensures Engine(h, false, log0).log ==
              log0 + (if h.acquisition.Locked? then [InUseRerouting(h.hivePath)] else []) + [DirtyNoLogsAbort]
  {
  }

  /** With replay waived, the hive is read as stored, after one warning when it is dirty. */
  lemma WaivedReplayReadsStoredImage(h: HiveSnapshot, log0: seq<LogEntry>)
    requires !(h.acquisition.Locked? && !h.acquisition.isAdministrator)
    ensures Engine(h, true, log0).result.Success?
    ensures Engine(h, true, log0) == (var s := ScanTree(h.asStored, log0 + OpenHive(h, true).log);
                                      Run(Success(Output(s.programs, s.unassociated, s.total)), s.log))
    ensures OpenHive(h, true).log ==
              (if h.acquisition.Locked? then [InUseRerouting(h.hivePath)] else []) +
              (if h.primarySequence == h.secondarySequence then []
               else [if h.diskLogs == [] then DirtyNoLogsContinue else DirtyLogsIgnored])
  {
  }

  /**
   * Whatever the hive holds, a run that gets past opening reports a total no
   * smaller than the number of File entries it placed, each where it belongs.
   */
  lemma EngineOutputConsistent(h: HiveSnapshot, noLogs: bool, log0: seq<LogEntry>)
    requires Engine(h, noLogs, log0).result.Success?
    ensures var out := Engine(h, noLogs, log0).result.value;
            Placed(ScanState(out.programs, out.unassociated, out.total, [])) <= out.total &&
            WellPlaced(ScanState(out.programs, out.unassociated, out.total, []))
  {
    var tree := OpenHive(h, noLogs).tree.value;
    if tree.fileKey.Some? && tree.programsKey.Some? {
      ScanTreeCounts(tree, log0 + OpenHive(h, noLogs).log);
    }
  }

  /** `SingleOrDefault(t => t.ProgramID == id)` over the Programs entries, as a scan of the list. */
  method SingleOrDefault(programs: seq<ProgramEntry>, id: string) returns (r: Lookup)
    ensures r == FindProgram(ProgramIds(programs), id)
  {
    var ids := ProgramIds(programs);
    r := NoMatch;
    var i := 0;
    while i < |programs|
      invariant 0 <= i <= |programs|
      invariant r == FindProgram(ids[..i], id)
    {
      assert ids[..i + 1][..i] == ids[..i];
      if programs[i].ProgramID() == id {
        r := if r.NoMatch? then Unique(i) else Duplicate;
      }
      i := i + 1;
    }
    assert ids[..i] == ids;
  }

  class AmcacheOld {
    var ProgramsEntries: seq<ProgramEntry>
    var UnassociatedFileEntries: seq<FileEntry>
    /** A count of File entries with a full path; the source's `int`. */
    var TotalFileEntries: nat

    ghost function State(log: seq<LogEntry>): ScanState
      reads this
    {
      ScanState(ProgramsEntries, UnassociatedFileEntries, TotalFileEntries, log)
    }

    /** Reads the two keys of `tree` into the three results, writing to `logger`. */
    constructor (tree: Tree, logger: Logger)
      modifies logger
      ensures State(logger.entries) == ScanTree(tree, old(logger.entries))
    {
      ProgramsEntries := [];
      UnassociatedFileEntries := [];
      TotalFileEntries := 0;
      new;
      if tree.fileKey.None? || tree.programsKey.None? {
        logger.Write([MissingFileOrProgramsKey]);
        return;
      }
      logger.Write([GettingProgramsData]);
      ReadPrograms(tree.programsKey.value.subKeys, logger);
      logger.Write([GettingFilesData]);
      ReadFiles(tree.fileKey.value.subKeys, logger);
    }

    /** The loop over the keys under `Root\Programs`. */
    method ReadPrograms(keys: seq<Key>, logger: Logger)
      modifies this, logger
      ensures State(logger.entries) == ProgramsPass(old(State(logger.entries)), keys)
    {
      ghost var s0 := State(logger.entries);
      var i := 0;
      while i < |keys|
        invariant 0 <= i <= |keys|
        invariant State(logger.entries) == ProgramsPass(s0, keys[..i])
      {
        assert keys[..i + 1][..i] == keys[..i];
        ReadProgram(keys[i], logger);
        i := i + 1;
      }
      assert keys[..i] == keys;
    }

    /** The body of the Programs loop for one key: decode, log, and append the entry. */
    method ReadProgram(key: Key, logger: Logger)
      modifies this, logger
      ensures State(logger.entries) == ProgramRecord(old(State(logger.entries)), key)
    {
      var entry, log := DecodeProgram(key);
      logger.Write(log);
      if entry.Some? {
        ProgramsEntries := ProgramsEntries + [entry.value];
      }
    }

    /** The outer loop over the volume keys of `Root\File`. */
    method ReadFiles(volumes: seq<Key>, logger: Logger)
      modifies this, logger
      ensures State(logger.entries) == FilesPass(old(State(logger.entries)), volumes)
    {
      ghost var s0 := State(logger.entries);
      var v := 0;
      while v < |volumes|
        invariant 0 <= v <= |volumes|
        invariant State(logger.entries) == FilesPass(s0, volumes[..v])
      {
        assert volumes[..v + 1][..v] == volumes[..v];
        ReadVolume(volumes[v], logger);
        v := v + 1;
      }
      assert volumes[..v] == volumes;
    }

    /** The inner loop over the file keys of one volume key. */
    method ReadVolume(volume: Key, logger: Logger)
      modifies this, logger
      ensures State(logger.entries) == VolumePass(old(State(logger.entries)), volume, volume.subKeys)
    {
      ghost var s1 := State(logger.entries);
      var f := 0;
      while f < |volume.subKeys|
        invariant 0 <= f <= |volume.subKeys|
        invariant State(logger.entries) == VolumePass(s1, volume, volume.subKeys[..f])
      {
        VolumePassNext(s1, volume, volume.subKeys, f);
        ReadFile(volume, volume.subKeys[f], logger);
        f := f + 1;
      }
      assert volume.subKeys[..f] == volume.subKeys;
    }

    /** The body of the inner loop for one file key: decode, count, build, and link in place. */
    method ReadFile(volume: Key, file: Key, logger: Logger)
      modifies this, logger
      ensures State(logger.entries) == FileRecord(old(State(logger.entries)), volume, file)
    {
      var ids := ProgramIds(ProgramsEntries);
      var scan := DecodeFileValues(file, ids);
      PlaceFile(volume, file, scan, logger);
    }

    /** What follows the values of a file key: count, build, and link in place. */
    method PlaceFile(volume: Key, file: Key, scan: Scan<FileStage>, logger: Logger)
      modifies this, logger
      ensures State(logger.entries) == PlaceRecord(old(State(logger.entries)), volume, file, scan)
    {
      logger.Write(scan.warnings);
      if scan.failure.Some? {
        logger.Write(ErrorLines(FileEntryError(file.path, scan.failure.value), file.path));
        return;
      }
      if |scan.stage.fields.fullPath| == 0 {
        return;
      }
      TotalFileEntries := TotalFileEntries + 1;
      var built := BuildFileEntry(scan.stage.fields, volume, file);
      if built.Failure? {
        logger.Write(ErrorLines(FileEntryError(file.path, built.error), file.path));
        return;
      }
      var fe := built.value;
      if scan.stage.hasLinkedProgram {
        var lookup := SingleOrDefault(ProgramsEntries, fe.ProgramID());
        match lookup {
          case Unique(i) =>
            fe := fe.(programName := ProgramsEntries[i].ProgramName());
            ProgramsEntries := ProgramsEntries[i := ProgramsEntries[i].(fileEntries := ProgramsEntries[i].fileEntries + [fe])];
          case NoMatch =>
            logger.Write(ErrorLines(FileEntryError(file.path, NullReference), file.path));
          case Duplicate =>
            logger.Write(ErrorLines(FileEntryError(file.path, MoreThanOneMatch), file.path));
        }
      } else {
        fe := fe.(programName := "Unassociated");
        UnassociatedFileEntries := UnassociatedFileEntries + [fe];
      }
    }
  }

  /**
   * The constructor `AmcacheOld(hive, recoverDeleted, noLogs)`: the opening
   * and dirty-hive handling, then the two passes; it either yields a fresh
   * object holding the engine's results or fails as the engine does, and the
   * logger receives the engine's lines in order.
   */
  method Load(h: HiveSnapshot, noLogs: bool, logger: Logger) returns (r: Result<AmcacheOld, Fatal>)
    modifies logger
    ensures r.Success? <==> Engine(h, noLogs, old(logger.entries)).result.Success?
    ensures r.Failure? ==> r.error == Engine(h, noLogs, old(logger.entries)).result.error
    ensures r.Success? ==>
              fresh(r.value) &&
              r.value.ProgramsEntries == Engine(h, noLogs, old(logger.entries)).result.value.programs &&
              r.value.UnassociatedFileEntries == Engine(h, noLogs, old(logger.entries)).result.value.unassociated &&
              r.value.TotalFileEntries == Engine(h, noLogs, old(logger.entries)).result.value.total
    ensures logger.entries == Engine(h, noLogs, old(logger.entries)).log
  {
    var opening := OpenHive(h, noLogs);
    logger.Write(opening.log);
    if opening.tree.Failure? {
      return Failure(opening.tree.error);
    }
    var engine := new AmcacheOld(opening.tree.value, logger);
    return Success(engine);
  }
}
