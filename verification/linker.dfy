/**
 * The two passes of the engine over a parsed hive, as functions of the
 * lists they build: first every key under `Root\Programs` becomes a
 * Programs entry; then every file key under every volume key of `Root\File`
 * is decoded, counted when it has a full path, and either joined to the one
 * Programs entry whose ID it names or put in the unassociated list.
 */
module Linker {
  import opened Wrappers
  import opened Registry
  import opened Logging
  import opened Entries
  import opened Staging
  import opened ProgramDecoder
  import opened FileDecoder

  /** What the engine has built so far, and the log it has written. */
  datatype ScanState = ScanState(
    programs: seq<ProgramEntry>,
    unassociated: seq<FileEntry>,
    total: nat,
    log: seq<LogEntry>)

  /** The IDs the File pass looks up, in list order. */
  function ProgramIds(programs: seq<ProgramEntry>): (ids: seq<string>)
    ensures |ids| == |programs|
    ensures forall i :: 0 <= i < |programs| ==> ids[i] == programs[i].ProgramID()
  {
    seq(|programs|, i requires 0 <= i < |programs| => programs[i].ProgramID())
  }

  /** One Programs key: its lines are logged, and its entry, if it decodes, is appended. */
  function ProgramRecord(s: ScanState, key: Key): ScanState {
    var o := BuildProgram(key);
    s.(programs := s.programs + (if o.entry.Some? then [o.entry.value] else []), log := s.log + o.log)
  }

  /** The Programs loop: each key's warnings and outcome, in key order. */
  function ProgramsPass(s: ScanState, keys: seq<Key>): ScanState
    decreases |keys|
  {
    if keys == [] then s
    else ProgramRecord(ProgramsPass(s, keys[..|keys| - 1]), keys[|keys| - 1])
  }

  /** The names of the keys, in order. */
  function KeyNames(keys: seq<Key>): (names: seq<string>)
    ensures |names| == |keys|
    ensures forall i :: 0 <= i < |keys| ==> names[i] == keys[i].name
  {
    seq(|keys|, i requires 0 <= i < |keys| => keys[i].name)
  }

  /** A Programs entry as the Programs pass builds it: no File entries, and "14"/"15" never stored. */
  predicate FreshProgram(p: ProgramEntry) {
    p.fileEntries == [] && p.fields.dword14 == 0 && p.fields.dword15 == 0
  }

  /**
   * The Programs pass only appends, at most one entry per key, and leaves the
   * File lists and the total alone.
   */
  lemma {:induction false} ProgramsPassAppends(s: ScanState, keys: seq<Key>)
    ensures var r := ProgramsPass(s, keys);
            r.unassociated == s.unassociated && r.total == s.total &&
            |s.programs| <= |r.programs| <= |s.programs| + |keys| &&
            r.programs[..|s.programs|] == s.programs &&
            |s.log| <= |r.log| && r.log[..|s.log|] == s.log
    decreases |keys|
  {
    if keys != [] {
      var front := keys[..|keys| - 1];
      ProgramsPassAppends(s, front);
      var prior := ProgramsPass(s, front);
      var r := ProgramsPass(s, keys);
      assert r.programs[..|prior.programs|] == prior.programs;
      assert r.programs[..|s.programs|] == prior.programs[..|s.programs|];
      assert r.log[..|prior.log|] == prior.log;
      assert r.log[..|s.log|] == prior.log[..|s.log|];
    }
  }

  /** Each entry the Programs pass appends is fresh and named after one of the keys. */
  lemma {:induction false} ProgramsPassFresh(s: ScanState, keys: seq<Key>)
    ensures forall i :: |s.programs| <= i < |ProgramsPass(s, keys).programs| ==>
              FreshProgram(ProgramsPass(s, keys).programs[i]) &&
              ProgramsPass(s, keys).programs[i].ProgramID() in KeyNames(keys)
    decreases |keys|
  {
    if keys != [] {
      var front := keys[..|keys| - 1];
      var key := keys[|keys| - 1];
      ProgramsPassFresh(s, front);
      var prior := ProgramsPass(s, front);
      var o := BuildProgram(key);
      var r := ProgramsPass(s, keys);
      assert r.programs == prior.programs + (if o.entry.Some? then [o.entry.value] else []);
      if o.entry.Some? {
        ProgramFoldProperties(key.path, key.values);
        assert KeyNames(keys)[|keys| - 1] == key.name;
      }
      forall i | |s.programs| <= i < |r.programs|
        ensures FreshProgram(r.programs[i]) && r.programs[i].ProgramID() in KeyNames(keys)
      {
        if i < |prior.programs| {
          assert r.programs[i] == prior.programs[i];
          var k :| 0 <= k < |front| && KeyNames(front)[k] == prior.programs[i].ProgramID();
          assert KeyNames(keys)[k] == KeyNames(front)[k];
        } else {
          assert r.programs[i] == o.entry.value;
        }
      }
    }
  }

  /** A key that decodes adds exactly its entry; one that does not adds none. */
  lemma ProgramsPassStep(s: ScanState, keys: seq<Key>, key: Key)
    ensures var r := ProgramsPass(s, keys + [key]);
            var prior := ProgramsPass(s, keys);
            (BuildProgram(key).entry.Some? ==> r.programs == prior.programs + [BuildProgram(key).entry.value]) &&
            (BuildProgram(key).entry.None? ==> r.programs == prior.programs) &&
            r.log == prior.log + BuildProgram(key).log
  {
    assert (keys + [key])[..|keys|] == keys;
  }

  /** `program.FileEntries.Add(fe)` on the i-th Programs entry. */
  function Link(programs: seq<ProgramEntry>, i: nat, fe: FileEntry): (r: seq<ProgramEntry>)
    requires i < |programs|
    ensures |r| == |programs|
    ensures r[i].fileEntries == programs[i].fileEntries + [fe]
    ensures forall j :: 0 <= j < |programs| && j != i ==> r[j] == programs[j]
    ensures forall j :: 0 <= j < |programs| ==>
              r[j].fields == programs[j].fields && r[j].keyName == programs[j].keyName &&
              r[j].lastWrite == programs[j].lastWrite
  {
    programs[i := programs[i].(fileEntries := programs[i].fileEntries + [fe])]
  }

  /** The File entries held by the Programs entries. */
  function LinkedCount(programs: seq<ProgramEntry>): nat
    decreases |programs|
  {
    if programs == [] then 0
    else LinkedCount(programs[..|programs| - 1]) + |programs[|programs| - 1].fileEntries|
  }

  lemma {:induction false} LinkAddsOne(programs: seq<ProgramEntry>, i: nat, fe: FileEntry)
    requires i < |programs|
    ensures LinkedCount(Link(programs, i, fe)) == LinkedCount(programs) + 1
    decreases |programs|
  {
    var r := Link(programs, i, fe);
    var n := |programs| - 1;
    if i < n {
      assert r[..n] == Link(programs[..n], i, fe);
      LinkAddsOne(programs[..n], i, fe);
    } else {
      assert r[..n] == programs[..n];
    }
  }

  /** Every File entry placed so far, linked or not. */
  function Placed(s: ScanState): nat {
    LinkedCount(s.programs) + |s.unassociated|
  }

  /** The record is abandoned: three error lines, nothing placed. */
  function Drop(s: ScanState, keyPath: string, failure: Failure): ScanState {
    s.(log := s.log + ErrorLines(FileEntryError(keyPath, failure), keyPath))
  }

  /**
   * One file key of a volume: its values, then (when it has a full path) the
   * count, the entry, and the second lookup that joins it to its program.
   */
  function FileRecord(s: ScanState, volume: Key, file: Key): ScanState {
    PlaceRecord(s, volume, file, FileValuesFold(file.path, file.values, ProgramIds(s.programs)))
  }

  /** What follows the values of a file key, given how they decoded. */
  function PlaceRecord(s: ScanState, volume: Key, file: Key, scan: Scan<FileStage>): ScanState {
    var ids := ProgramIds(s.programs);
    var s1 := s.(log := s.log + scan.warnings);
    if scan.failure.Some? then Drop(s1, file.path, scan.failure.value)
    else if |scan.stage.fields.fullPath| == 0 then s1
    else
      var s2 := s1.(total := s1.total + 1);
      match BuildFileEntry(scan.stage.fields, volume, file)
      case Failure(e) => Drop(s2, file.path, e)
      case Success(fe) =>
        if scan.stage.hasLinkedProgram then
          match FindProgram(ids, fe.ProgramID())
          case Unique(i) => s2.(programs := Link(s2.programs, i, fe.(programName := s2.programs[i].ProgramName())))
          case NoMatch => Drop(s2, file.path, NullReference)
          case Duplicate => Drop(s2, file.path, MoreThanOneMatch)
        else s2.(unassociated := s2.unassociated + [fe.(programName := "Unassociated")])
  }

  /** The loop over the file keys of one volume key. */
  function VolumePass(s: ScanState, volume: Key, files: seq<Key>): ScanState
    decreases |files|
  {
    if files == [] then s
    else FileRecord(VolumePass(s, volume, files[..|files| - 1]), volume, files[|files| - 1])
  }

  /** One more file key of a volume. */
  lemma VolumePassNext(s: ScanState, volume: Key, files: seq<Key>, k: nat)
    requires k < |files|
    ensures VolumePass(s, volume, files[..k + 1]) == FileRecord(VolumePass(s, volume, files[..k]), volume, files[k])
  {
    assert files[..k + 1][..k] == files[..k];
  }

  /** The loop over the volume keys of `Root\File`. */
  function FilesPass(s: ScanState, volumes: seq<Key>): ScanState
    decreases |volumes|
  {
    if volumes == [] then s
    else
      var volume := volumes[|volumes| - 1];
      VolumePass(FilesPass(s, volumes[..|volumes| - 1]), volume, volume.subKeys)
  }

  /** Whether decoded values count: no exception and a full path. */
  predicate CountedScan(scan: Scan<FileStage>) {
    scan.failure.None? && |scan.stage.fields.fullPath| > 0
  }

  /** Whether decoded values are placed: they count, both times exist, and any link they claim resolves. */
  predicate PlacedScan(volume: Key, file: Key, scan: Scan<FileStage>, ids: seq<string>) {
    CountedScan(scan) && volume.lastWrite.Some? && file.lastWrite.Some? &&
    (scan.stage.hasLinkedProgram ==> FindProgram(ids, scan.stage.fields.programId).Unique?)
  }

  /** Whether a file key counts: its values all decode and it has a full path. */
  predicate Counted(file: Key, ids: seq<string>) {
    CountedScan(FileValuesFold(file.path, file.values, ids))
  }

  /** Whether a file key is placed: it counts, has both times, and any link it claims resolves. */
  predicate PlacedRecord(volume: Key, file: Key, ids: seq<string>) {
    PlacedScan(volume, file, FileValuesFold(file.path, file.values, ids), ids)
  }

  /** The headers of the Programs entries: what the File pass must not change. */
  predicate SameHeaders(a: seq<ProgramEntry>, b: seq<ProgramEntry>) {
    |a| == |b| &&
    forall i :: 0 <= i < |a| ==>
      a[i].fields == b[i].fields && a[i].keyName == b[i].keyName && a[i].lastWrite == b[i].lastWrite
  }

  /** The lists only grow: Programs entries gain File entries, the unassociated list is appended to. */
  predicate Grows(a: ScanState, b: ScanState) {
    SameHeaders(a.programs, b.programs) &&
    (forall i :: 0 <= i < |a.programs| ==>
       |a.programs[i].fileEntries| <= |b.programs[i].fileEntries| &&
       b.programs[i].fileEntries[..|a.programs[i].fileEntries|] == a.programs[i].fileEntries) &&
    |a.unassociated| <= |b.unassociated| && b.unassociated[..|a.unassociated|] == a.unassociated &&
    |a.log| <= |b.log| && b.log[..|a.log|] == a.log
  }

  /**
   * Every File entry sits where it belongs: under the Programs entry whose ID
   * it carries, with that entry's name, or in the unassociated list named
   * "Unassociated"; and each has a full path.
   */
  predicate WellPlaced(s: ScanState) {
    (forall i, j :: 0 <= i < |s.programs| && 0 <= j < |s.programs[i].fileEntries| ==>
       s.programs[i].fileEntries[j].ProgramID() == s.programs[i].ProgramID() &&
       s.programs[i].fileEntries[j].programName == s.programs[i].ProgramName() &&
       |s.programs[i].fileEntries[j].fields.fullPath| > 0) &&
    (forall e :: e in s.unassociated ==> e.programName == "Unassociated" && |e.fields.fullPath| > 0)
  }

  /** The total grows by one exactly when the record counts. */
  lemma PlaceRecordTotal(s: ScanState, volume: Key, file: Key, scan: Scan<FileStage>)
    ensures PlaceRecord(s, volume, file, scan).total == s.total + (if CountedScan(scan) then 1 else 0)
  {
  }

  /** One entry is placed exactly when the record is placed. */
  lemma PlaceRecordPlaced(s: ScanState, volume: Key, file: Key, scan: Scan<FileStage>)
    ensures Placed(PlaceRecord(s, volume, file, scan)) ==
              Placed(s) + (if PlacedScan(volume, file, scan, ProgramIds(s.programs)) then 1 else 0)
  {
    var ids := ProgramIds(s.programs);
    var r := PlaceRecord(s, volume, file, scan);
    if PlacedScan(volume, file, scan, ids) {
      var fe := BuildFileEntry(scan.stage.fields, volume, file).value;
      if scan.stage.hasLinkedProgram {
        var i := FindProgram(ids, fe.ProgramID()).index;
        var linked := fe.(programName := s.programs[i].ProgramName());
        LinkAddsOne(s.programs, i, linked);
        assert r.programs == Link(s.programs, i, linked);
      } else {
        assert r.unassociated == s.unassociated + [fe.(programName := "Unassociated")];
      }
    } else {
      assert r.programs == s.programs && r.unassociated == s.unassociated;
    }
  }

  /** The Programs headers are untouched and the lists only grow. */
  lemma PlaceRecordGrows(s: ScanState, volume: Key, file: Key, scan: Scan<FileStage>)
    ensures Grows(s, PlaceRecord(s, volume, file, scan))
  {
    var ids := ProgramIds(s.programs);
    var r := PlaceRecord(s, volume, file, scan);
    assert r.log[..|s.log|] == s.log;
    if PlacedScan(volume, file, scan, ids) {
      var fe := BuildFileEntry(scan.stage.fields, volume, file).value;
      if scan.stage.hasLinkedProgram {
        var i := FindProgram(ids, fe.ProgramID()).index;
        var linked := fe.(programName := s.programs[i].ProgramName());
        assert r.programs == Link(s.programs, i, linked);
        assert r.programs[i].fileEntries[..|s.programs[i].fileEntries|] == s.programs[i].fileEntries;
        assert r.unassociated == s.unassociated;
      } else {
        assert r.programs == s.programs;
      }
    } else {
      assert r.programs == s.programs && r.unassociated == s.unassociated;
    }
    assert r.unassociated[..|s.unassociated|] == s.unassociated;
  }

  /** Every entry stays where it belongs. */
  lemma PlaceRecordWellPlaced(s: ScanState, volume: Key, file: Key, scan: Scan<FileStage>)
    requires WellPlaced(s)
    ensures WellPlaced(PlaceRecord(s, volume, file, scan))
  {
    var ids := ProgramIds(s.programs);
    var r := PlaceRecord(s, volume, file, scan);
    if PlacedScan(volume, file, scan, ids) {
      var fe := BuildFileEntry(scan.stage.fields, volume, file).value;
      if scan.stage.hasLinkedProgram {
        var i := FindProgram(ids, fe.ProgramID()).index;
        var linked := fe.(programName := s.programs[i].ProgramName());
        assert r.programs == Link(s.programs, i, linked);
        assert linked.ProgramID() == s.programs[i].ProgramID();
      } else {
        assert r.programs == s.programs;
      }
    } else {
      assert r.programs == s.programs && r.unassociated == s.unassociated;
    }
  }

  /** A file key that does not decode is dropped with three error lines and is not counted. */
  lemma FailedRecordDropped(s: ScanState, volume: Key, file: Key)
    requires FileValuesFold(file.path, file.values, ProgramIds(s.programs)).failure.Some?
    ensures var scan := FileValuesFold(file.path, file.values, ProgramIds(s.programs));
            FileRecord(s, volume, file) ==
              s.(log := s.log + scan.warnings + ErrorLines(FileEntryError(file.path, scan.failure.value), file.path))
  {
  }

  /** A file key that decodes with no full path is skipped: not counted, no entry, no error. */
  lemma EmptyPathSkipped(s: ScanState, volume: Key, file: Key)
    requires var scan := FileValuesFold(file.path, file.values, ProgramIds(s.programs));
             scan.failure.None? && scan.stage.fields.fullPath == ""
    ensures FileRecord(s, volume, file) ==
              s.(log := s.log + FileValuesFold(file.path, file.values, ProgramIds(s.programs)).warnings)
  {
  }

  /**
   * A placed file key whose ProgramID value named a Programs entry joins that
   * entry's File entries, carrying the entry's name; nothing else changes but
   * the total and the log.
   */
  lemma MatchingFileJoinsItsProgram(s: ScanState, volume: Key, file: Key, i: nat)
    requires var ids := ProgramIds(s.programs);
             var scan := FileValuesFold(file.path, file.values, ids);
             PlacedRecord(volume, file, ids) && scan.stage.hasLinkedProgram &&
             FindProgram(ids, scan.stage.fields.programId) == Unique(i)
    ensures var scan := FileValuesFold(file.path, file.values, ProgramIds(s.programs));
            var r := FileRecord(s, volume, file);
            i < |s.programs| &&
            r.programs == s.programs[i := s.programs[i].(fileEntries := s.programs[i].fileEntries +
                            [BuildFileEntry(scan.stage.fields, volume, file).value.(programName := s.programs[i].ProgramName())])] &&
            r.unassociated == s.unassociated && r.total == s.total + 1
  {
  }

  /**
   * A placed file key with no linked program goes to the end of the
   * unassociated list as "Unassociated"; the Programs entries do not change.
   */
  lemma UnmatchedFileIsUnassociated(s: ScanState, volume: Key, file: Key)
    requires var ids := ProgramIds(s.programs);
             PlacedRecord(volume, file, ids) &&
             !FileValuesFold(file.path, file.values, ids).stage.hasLinkedProgram
    ensures var scan := FileValuesFold(file.path, file.values, ProgramIds(s.programs));
            var r := FileRecord(s, volume, file);
            r.unassociated == s.unassociated + [BuildFileEntry(scan.stage.fields, volume, file).value.(programName := "Unassociated")] &&
            r.programs == s.programs && r.total == s.total + 1
  {
  }

  /**
   * A file key that counts but names, in its last ProgramID value, no
   * Programs entry after an earlier one did is counted yet dropped: the
   * second lookup finds nothing and the name is read from null.
   */
  lemma StaleLinkIsDropped(s: ScanState, volume: Key, file: Key)
    requires var ids := ProgramIds(s.programs);
             var scan := FileValuesFold(file.path, file.values, ids);
             Counted(file, ids) && volume.lastWrite.Some? && file.lastWrite.Some? &&
             scan.stage.hasLinkedProgram && scan.stage.fields.programId !in ids
    ensures var scan := FileValuesFold(file.path, file.values, ProgramIds(s.programs));
            FileRecord(s, volume, file) ==
              s.(total := s.total + 1,
                 log := s.log + scan.warnings + ErrorLines(FileEntryError(file.path, NullReference), file.path))
  {
  }

  /** The number of file keys of a volume that count. */
  function CountedIn(files: seq<Key>, ids: seq<string>): nat
    decreases |files|
  {
    if files == [] then 0
    else CountedIn(files[..|files| - 1], ids) + (if Counted(files[|files| - 1], ids) then 1 else 0)
  }

  /** The number of file keys of all volumes that count. */
  function CountedAll(volumes: seq<Key>, ids: seq<string>): nat
    decreases |volumes|
  {
    if volumes == [] then 0
    else CountedAll(volumes[..|volumes| - 1], ids) + CountedIn(volumes[|volumes| - 1].subKeys, ids)
  }

  lemma GrowsTransitive(a: ScanState, b: ScanState, c: ScanState)
    requires Grows(a, b) && Grows(b, c)
    ensures Grows(a, c)
  {
    forall i | 0 <= i < |a.programs|
      ensures c.programs[i].fileEntries[..|a.programs[i].fileEntries|] == a.programs[i].fileEntries
    {
      assert c.programs[i].fileEntries[..|b.programs[i].fileEntries|][..|a.programs[i].fileEntries|] ==
             c.programs[i].fileEntries[..|a.programs[i].fileEntries|];
    }
    assert c.unassociated[..|b.unassociated|][..|a.unassociated|] == c.unassociated[..|a.unassociated|];
    assert c.log[..|b.log|][..|a.log|] == c.log[..|a.log|];
  }

  lemma GrowsReflexive(a: ScanState)
    ensures Grows(a, a)
  {
    assert a.unassociated[..|a.unassociated|] == a.unassociated;
    assert a.log[..|a.log|] == a.log;
    forall i | 0 <= i < |a.programs|
      ensures a.programs[i].fileEntries[..|a.programs[i].fileEntries|] == a.programs[i].fileEntries
    {
    }
  }

  /**
   * Over one volume: the total grows by the number of file keys that count,
   * no more entries are placed than are counted, the lists only grow, and
   * every entry stays where it belongs.
   */
  lemma {:induction false} VolumePassEffect(s: ScanState, volume: Key, files: seq<Key>)
    ensures var r := VolumePass(s, volume, files);
            r.total == s.total + CountedIn(files, ProgramIds(s.programs)) &&
            Placed(r) - Placed(s) <= r.total - s.total && Placed(s) <= Placed(r) &&
            Grows(s, r) && ProgramIds(r.programs) == ProgramIds(s.programs)
    ensures WellPlaced(s) ==> WellPlaced(VolumePass(s, volume, files))
    decreases |files|
  {
    if files == [] {
      GrowsReflexive(s);
    } else {
      var front := files[..|files| - 1];
      VolumePassEffect(s, volume, front);
      var prior := VolumePass(s, volume, front);
      var file := files[|files| - 1];
      var scan := FileValuesFold(file.path, file.values, ProgramIds(prior.programs));
      assert VolumePass(s, volume, files) == PlaceRecord(prior, volume, file, scan);
      PlaceRecordTotal(prior, volume, file, scan);
      PlaceRecordPlaced(prior, volume, file, scan);
      PlaceRecordGrows(prior, volume, file, scan);
      if WellPlaced(prior) {
        PlaceRecordWellPlaced(prior, volume, file, scan);
      }
      GrowsTransitive(s, prior, VolumePass(s, volume, files));
    }
  }

  /** Over all volumes: as for one volume. */
  lemma {:induction false} FilesPassEffect(s: ScanState, volumes: seq<Key>)
    ensures var r := FilesPass(s, volumes);
            r.total == s.total + CountedAll(volumes, ProgramIds(s.programs)) &&
            Placed(r) - Placed(s) <= r.total - s.total && Placed(s) <= Placed(r) &&
            Grows(s, r) && ProgramIds(r.programs) == ProgramIds(s.programs)
    ensures WellPlaced(s) ==> WellPlaced(FilesPass(s, volumes))
    decreases |volumes|
  {
    if volumes == [] {
      GrowsReflexive(s);
    } else {
      var front := volumes[..|volumes| - 1];
      var volume := volumes[|volumes| - 1];
      FilesPassEffect(s, front);
      var prior := FilesPass(s, front);
      VolumePassEffect(prior, volume, volume.subKeys);
      GrowsTransitive(s, prior, FilesPass(s, volumes));
    }
  }

  /**
   * The state the File pass starts from: the Programs pass over the keys
   * under `Root\Programs`, after the lines `log0` already written, and the
   * line announcing the File pass.
   */
  function AfterPrograms(tree: Tree, log0: seq<LogEntry>): ScanState
    requires tree.programsKey.Some?
  {
    var programs := ProgramsPass(ScanState([], [], 0, log0 + [GettingProgramsData]), tree.programsKey.value.subKeys);
    programs.(log := programs.log + [GettingFilesData])
  }

  /**
   * The whole scan of a parsed hive, after the lines `log0` already written:
   * nothing but an error line when either key is missing; otherwise the
   * Programs pass, then the File pass.
   */
  function ScanTree(tree: Tree, log0: seq<LogEntry>): ScanState {
    if tree.fileKey.None? || tree.programsKey.None? then
      ScanState([], [], 0, log0 + [MissingFileOrProgramsKey])
    else
      FilesPass(AfterPrograms(tree, log0), tree.fileKey.value.subKeys)
  }

  /** A hive without `Root\File` or `Root\Programs` yields empty lists, a zero total and one error line. */
  lemma MissingKeysYieldNothing(tree: Tree, log0: seq<LogEntry>)
    requires tree.fileKey.None? || tree.programsKey.None?
    ensures ScanTree(tree, log0).programs == [] && ScanTree(tree, log0).unassociated == []
    ensures ScanTree(tree, log0).total == 0
    ensures ScanTree(tree, log0).log == log0 + [MissingFileOrProgramsKey]
  {
  }

  /** The Programs entries as the Programs pass left them, before any File entry joined them. */
  function ProgramsOf(tree: Tree, log0: seq<LogEntry>): seq<ProgramEntry>
    requires tree.programsKey.Some?
  {
    AfterPrograms(tree, log0).programs
  }

  lemma PrefixTransitive<T>(a: seq<T>, b: seq<T>, c: seq<T>)
    requires |a| <= |b| && b[..|a|] == a
    requires |b| <= |c| && c[..|b|] == b
    ensures |a| <= |c| && c[..|a|] == a
  {
    assert c[..|a|] == c[..|b|][..|a|];
  }

  /** Entries with the same headers as fresh ones named after `names` keep those names and "14"/"15" unset. */
  lemma HeadersCarryOver(a: seq<ProgramEntry>, b: seq<ProgramEntry>, names: seq<string>)
    requires SameHeaders(a, b)
    requires forall i :: 0 <= i < |a| ==> FreshProgram(a[i]) && a[i].ProgramID() in names
    ensures forall i :: 0 <= i < |b| ==>
              b[i].ProgramID() in names && b[i].fields.dword14 == 0 && b[i].fields.dword15 == 0
  {
    forall i | 0 <= i < |b|
      ensures b[i].ProgramID() in names && b[i].fields.dword14 == 0 && b[i].fields.dword15 == 0
    {
      assert FreshProgram(a[i]) && a[i].ProgramID() in names;
    }
  }

  /** When the File pass starts, nothing is placed or counted and the log extends `log0`. */
  lemma AfterProgramsStartsEmpty(tree: Tree, log0: seq<LogEntry>)
    requires tree.programsKey.Some?
    ensures AfterPrograms(tree, log0).total == 0 && Placed(AfterPrograms(tree, log0)) == 0
    ensures WellPlaced(AfterPrograms(tree, log0))
    ensures |log0| <= |AfterPrograms(tree, log0).log| && AfterPrograms(tree, log0).log[..|log0|] == log0
  {
    var s0 := ScanState([], [], 0, log0 + [GettingProgramsData]);
    var keys := tree.programsKey.value.subKeys;
    ProgramsPassAppends(s0, keys);
    ProgramsPassFresh(s0, keys);
    var s1 := AfterPrograms(tree, log0);
    FreshProgramsHoldNothing(s1.programs);
    assert s0.log[..|log0|] == log0;
    assert s1.log[..|s0.log|] == s0.log by {
      assert s1.log[..|ProgramsPass(s0, keys).log|] == ProgramsPass(s0, keys).log;
    }
    PrefixTransitive(log0, s0.log, s1.log);
  }

  /** Every Programs entry the Programs pass builds is fresh and named after a key under `Root\Programs`. */
  lemma AfterProgramsFresh(tree: Tree, log0: seq<LogEntry>)
    requires tree.programsKey.Some?
    ensures forall i :: 0 <= i < |ProgramsOf(tree, log0)| ==>
              FreshProgram(ProgramsOf(tree, log0)[i]) &&
              ProgramsOf(tree, log0)[i].ProgramID() in KeyNames(tree.programsKey.value.subKeys)
  {
    ProgramsPassFresh(ScanState([], [], 0, log0 + [GettingProgramsData]), tree.programsKey.value.subKeys);
  }

  /**
   * Over a whole hive: the total is the number of file keys that count, no
   * more File entries are placed than are counted, and each sits under the
   * Programs entry whose ID it carries or in the unassociated list.
   */
  lemma ScanTreeCounts(tree: Tree, log0: seq<LogEntry>)
    requires tree.fileKey.Some? && tree.programsKey.Some?
    ensures ScanTree(tree, log0).total == CountedAll(tree.fileKey.value.subKeys, ProgramIds(ProgramsOf(tree, log0)))
    ensures Placed(ScanTree(tree, log0)) <= ScanTree(tree, log0).total
    ensures WellPlaced(ScanTree(tree, log0))
  {
    AfterProgramsStartsEmpty(tree, log0);
    FilesPassEffect(AfterPrograms(tree, log0), tree.fileKey.value.subKeys);
  }

  /** The File pass keeps the headers of the Programs entries it starts from, and extends the log. */
  lemma FilesPassKeepsPrograms(s: ScanState, volumes: seq<Key>, names: seq<string>)
    requires forall i :: 0 <= i < |s.programs| ==> FreshProgram(s.programs[i]) && s.programs[i].ProgramID() in names
    ensures SameHeaders(s.programs, FilesPass(s, volumes).programs)
    ensures |s.log| <= |FilesPass(s, volumes).log| && FilesPass(s, volumes).log[..|s.log|] == s.log
    ensures forall i :: 0 <= i < |FilesPass(s, volumes).programs| ==>
              FilesPass(s, volumes).programs[i].ProgramID() in names &&
              FilesPass(s, volumes).programs[i].fields.dword14 == 0 &&
              FilesPass(s, volumes).programs[i].fields.dword15 == 0
  {
    FilesPassEffect(s, volumes);
    HeadersCarryOver(s.programs, FilesPass(s, volumes).programs, names);
  }

  /**
   * The File pass leaves the Programs entries' own data alone, so every
   * Programs entry of the result comes from a key under `Root\Programs`,
   * with "14" and "15" unset; and the log extends `log0`.
   */
  lemma ScanTreeKeepsPrograms(tree: Tree, log0: seq<LogEntry>)
    requires tree.fileKey.Some? && tree.programsKey.Some?
    ensures SameHeaders(ProgramsOf(tree, log0), ScanTree(tree, log0).programs)
    ensures |log0| <= |ScanTree(tree, log0).log| && ScanTree(tree, log0).log[..|log0|] == log0
    ensures forall i :: 0 <= i < |ScanTree(tree, log0).programs| ==>
              ScanTree(tree, log0).programs[i].ProgramID() in KeyNames(tree.programsKey.value.subKeys) &&
              ScanTree(tree, log0).programs[i].fields.dword14 == 0 &&
              ScanTree(tree, log0).programs[i].fields.dword15 == 0
  {
    var s1 := AfterPrograms(tree, log0);
    var r := FilesPass(s1, tree.fileKey.value.subKeys);
    assert ScanTree(tree, log0) == r;
    AfterProgramsStartsEmpty(tree, log0);
    AfterProgramsFresh(tree, log0);
    assert ProgramsOf(tree, log0) == s1.programs;
    FilesPassKeepsPrograms(s1, tree.fileKey.value.subKeys, KeyNames(tree.programsKey.value.subKeys));
    PrefixTransitive(log0, s1.log, r.log);
  }

  lemma {:induction false} FreshProgramsHoldNothing(programs: seq<ProgramEntry>)
    requires forall i :: 0 <= i < |programs| ==> FreshProgram(programs[i])
    ensures LinkedCount(programs) == 0
    decreases |programs|
  {
    if programs != [] {
      FreshProgramsHoldNothing(programs[..|programs| - 1]);
    }
  }
}
