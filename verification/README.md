# AmcacheOld, modelled in Dafny

This project models the engine behind `AmcacheOld`, the reader for the old
(Windows 7 era) layout of the `Amcache.hve` registry hive. The whole engine
runs in the constructor `AmcacheOld(hive, recoverDeleted, noLogs)`:

1. It opens the hive. When another process holds the hive, it goes through
   the raw-copy utility instead, which needs an elevated process.
2. When the two header sequence numbers disagree (a "dirty" hive), it
   replays the transaction logs found beside the hive. It can also go on
   without them, or abort.
3. It reads every key under `Root\Programs` into a Programs entry. Each value
   is dispatched on a string token.
4. It reads every file key under every volume key of `Root\File`, with each
   value dispatched on a hexadecimal code. A file key with a full path is
   counted. The entry is then joined to the Programs entry whose ID its
   ProgramID value names, or it goes into the unassociated list.

Any exception inside one record drops that record. Three error lines are
logged, and the loop goes on.

The modules follow that structure:

- `Wrappers` holds Option and Result.
- `Registry` is the key tree that the hive library hands back.
- `Logging` holds the log messages as tags and a `Logger` that collects them.
- `Numbers` models .NET `int`/`long`/`uint`/`ulong.Parse` and the
  `HexNumber` parse, each with the formatter that inverts it.
- `Time` models `FromUnixTimeSeconds` and `FromFileTime`, over UTC ticks.
- `Recovery` is the dirty-hive decision.
- `Entries` holds the staged fields, the two entry records, and how a
  parsed number becomes a field value.
- `Staging` is the per-value step and the per-record scan.
- `ProgramDecoder` and `FileDecoder` are the two value switches and their
  folds.
- `Linker` describes both passes as functions of the lists they build.
- `Amcache` is the `AmcacheOld` class. Its loops are proved equal to the
  `Linker` functions. The module also holds `OpenHive`, `Engine` and `Load`.

Three behaviours of the code are easy to misread:

- Two Programs entries with the same ID make `SingleOrDefault` throw, so the
  File record is dropped. The first match does not win.
- A value that fails to parse drops its whole record. The field is not
  simply left unset. The only exception is value "a", which swallows its own
  failures.
- `TotalFileEntries` counts the file keys whose values all decode and whose
  full path is not empty. A key that later fails, for a missing last-write
  time or an unresolved link, stays counted.

## Model

| member | source | states |
|---|---|---|
| Numbers.ParseBounded | Amcache/AmcacheOld.cs:205 | a parse succeeds exactly when the text is a number inside the target type's range, with that number; it fails with a format error exactly when the text is not a number, and with an overflow error exactly when the number is outside the range |
| Numbers.ParseFormatRoundTrip | Amcache/AmcacheOld.cs:205 | the decimal rendering of any integer parses back to that integer |
| Numbers.ParseBoundedRoundTrip | Amcache/AmcacheOld.cs:369-375 | the rendering of n parses to n exactly when n is in the type's range, and otherwise overflows |
| Numbers.ParsePaddedNumeral | Amcache/AmcacheOld.cs:205 | white space, an optional `+` or `-`, decimal digits with any leading zeros, then white space, read as the digits' value, negated after `-` |
| Numbers.TrimStartRemovesWhite | Amcache/AmcacheOld.cs:205 | trimming the front removes a prefix made only of white space and keeps the rest as it is |
| Numbers.TrimEndRemovesWhite | Amcache/AmcacheOld.cs:205 | trimming the end removes a suffix made only of white space and keeps the rest as it is |
| Numbers.ParseHex32 | Amcache/AmcacheOld.cs:337 | a hexadecimal value name that parses gives a 32-bit signed code |
| Numbers.HexPattern | Amcache/AmcacheOld.cs:337 | trimmed hex text parses exactly when it is non-empty hex digits worth at most 0xFFFFFFFF, to that pattern read as a signed 32-bit value; longer digit strings overflow, anything else is a format error |
| Numbers.HexIgnoresCase | Amcache/AmcacheOld.cs:337 | two hex names whose digits have the same values, in upper or lower case, parse to the same result |
| Numbers.HexIgnoresLeadingZero | Amcache/AmcacheOld.cs:337 | a leading zero does not change what a hex name parses to |
| Numbers.HexRoundTrip | Amcache/AmcacheOld.cs:337 | the upper-case hex rendering of any 32-bit pattern parses back to its two's complement value |
| Numbers.LowerHexRoundTrip | Amcache/AmcacheOld.cs:337 | the lower-case hex rendering of any 32-bit pattern parses back to its two's complement value |
| Time.FromUnixTimeSeconds | Amcache/AmcacheOld.cs:219 | succeeds exactly when the instant the seconds name is representable, and then gives a representable instant |
| Time.UnixSecondsReadBack | Amcache/AmcacheOld.cs:219 | a converted instant falls on a whole second and reads back as the same number of seconds |
| Time.UnixSecondsRoundTrip | Amcache/AmcacheOld.cs:233 | every whole-second representable instant comes back from its Unix seconds |
| Time.FromFileTime | Amcache/AmcacheOld.cs:392 | succeeds exactly when the FILETIME is not negative and the instant is representable; the instant reads back as the same FILETIME |
| Time.FileTimeRoundTrip | Amcache/AmcacheOld.cs:396 | every representable instant from 1601 on comes back from its FILETIME |
| Recovery.CopiedFiles | Amcache/AmcacheOld.cs:68-78 | the raw copies exist exactly when the hive was locked: the hive first, then exactly its logs in order |
| Recovery.DecideRecovery | Amcache/AmcacheOld.cs:87-140 | clean iff the sequence numbers agree; abort iff dirty with no logs and replay not waived; unreplayed iff dirty and waived, warning that there were no logs or that the logs were ignored; the replay uses the raw copies iff they exist, the disk logs otherwise; one warning exactly when a dirty hive is not replayed |
| Recovery.ReplayOmitsHive | Amcache/AmcacheOld.cs:115-127 | a locked hive is replayed from every raw copy except the first, i.e. its logs |
| Recovery.CleanIgnoresLogsAndFlag | Amcache/AmcacheOld.cs:87 | a clean hive is read as it is, whatever the flag and the logs on disk |
| ProgramDecoder.ProgramFieldOf | Amcache/AmcacheOld.cs:190-275 | no token leads to Dword14 or Dword15 |
| ProgramDecoder.EveryFieldHasALabel | Amcache/AmcacheOld.cs:192-272 | every staged field except Dword14 and Dword15 has a case label that selects it |
| ProgramDecoder.LabelTable | Amcache/AmcacheOld.cs:190-275 | a value name selects a field exactly when it is one of that field's case labels: "13", "14" and "15" for Dword13, none for Dword14 and Dword15, one for every other field |
| ProgramDecoder.TokenTableQuirks | Amcache/AmcacheOld.cs:252-260 | "13", "14" and "15" all write Dword13; "4", "8", "9", "c" and "e" are unknown |
| ProgramDecoder.DecodeForField | Amcache/AmcacheOld.cs:192-272 | each case yields a value of its field's kind |
| ProgramDecoder.SetChangesOnlyItsField | Amcache/AmcacheOld.cs:192-272 | storing a value sets its own field and leaves every other field unchanged |
| ProgramDecoder.DecodeFailsOnlyOnIntegers | Amcache/AmcacheOld.cs:204-268 | only the integer cases other than "a" can throw; text cases store the text as given |
| ProgramDecoder.DecodedProgramValue | Amcache/AmcacheOld.cs:204-268 | "5", "13" to "15" and "18" store what `int.Parse` reads and "17" what `long.Parse` reads, or throw the parser's exception; "16" stores the raw bytes; "a" stores its install rule's result |
| ProgramDecoder.EpochARule | Amcache/AmcacheOld.cs:213-226 | "a" is set to the instant exactly when it holds a positive, representable number of seconds; a bad number, zero or less, or an unrepresentable time leaves the field, and nothing throws |
| ProgramDecoder.EpochBRule | Amcache/AmcacheOld.cs:228-235 | "b" throws the parser's exception for a bad number and out-of-range for an unrepresentable positive time; zero or less leaves the field; any other time is stored as its instant |
| ProgramDecoder.DecodeError | Amcache/AmcacheOld.cs:204-268 | whatever was staged before, a case throws exactly the exception the reference FieldError names: the `int.Parse` exception for "5", "13" to "15" and "18", the `long.Parse` one for "17" and "b", out of range for an unrepresentable positive "b", and nothing for any other case |
| ProgramDecoder.ProgramValueStepRejects | Amcache/AmcacheOld.cs:190-275 | a value throws e exactly when its name selects a case whose decoding fails with e, exactly when the reference ProgramValueError names e |
| ProgramDecoder.ProgramFailureIsFinal | Amcache/AmcacheOld.cs:186-291 | once a value throws, the later values of the key have no effect |
| ProgramDecoder.ProgramFoldFailure | Amcache/AmcacheOld.cs:186-291 | a key's values fail exactly when one of them throws; a key decodes exactly when none does |
| ProgramDecoder.ProgramFoldSucceeds | Amcache/AmcacheOld.cs:186-291 | a key none of whose values throws decodes |
| ProgramDecoder.ProgramFoldFails | Amcache/AmcacheOld.cs:186-291 | a key with one value that throws fails |
| ProgramDecoder.ProgramFirstFailure | Amcache/AmcacheOld.cs:186-291 | a key that fails fails with the exception of the first value that throws |
| ProgramDecoder.ProgramFoldProperties | Amcache/AmcacheOld.cs:188-276 | Dword14 and Dword15 stay 0; a key that decodes logs one warning per unknown token; a failure comes from a value whose token names an integer field |
| ProgramDecoder.BuildProgram | Amcache/AmcacheOld.cs:279-291 | an entry exists iff the values decode and the key has a last-write time; it carries the key name as ID, the key's last-write time, no File entries and the staged fields; otherwise the warnings are followed by the three error lines naming the exception, or the missing value |
| ProgramDecoder.DecodeProgram | Amcache/AmcacheOld.cs:162-291 | the loop over a key's values yields what BuildProgram specifies |
| FileDecoder.FindProgram | Amcache/AmcacheOld.cs:414 | no match iff the ID is absent; a unique match is the only index holding the ID; two matches give a duplicate |
| FileDecoder.CodeTableIsExact | Amcache/AmcacheOld.cs:14-37 | a code selects a field iff it is that field's constant |
| FileDecoder.CodeTableGaps | Amcache/AmcacheOld.cs:28-32 | 0xe, 0x13 and 0x14 are not case labels |
| FileDecoder.DecodeForFileField | Amcache/AmcacheOld.cs:341-423 | each case yields a value of its field's kind |
| FileDecoder.SetFileFieldChangesOnlyItsField | Amcache/AmcacheOld.cs:341-423 | storing a value sets its own field and leaves every other field unchanged |
| FileDecoder.DecodedFileValueRanges | Amcache/AmcacheOld.cs:368-396 | a checksum is a uint, a product version a long, a file version a ulong, and every instant is representable |
| FileDecoder.DecodedFileValue | Amcache/AmcacheOld.cs:349-405 | the language code, file size and image size store what `int.Parse` reads, the checksum what `uint.Parse` reads (all nullable), the product version `long.Parse`, the file version `ulong.Parse`, and the linker version, binary type, IsLocal flag and guessed program ID `int.Parse`; each throws its parser's exception |
| FileDecoder.TextDecodedAsIs | Amcache/AmcacheOld.cs:341-420 | exactly the ten text cases store the value's data as it is |
| FileDecoder.LinkDateRule | Amcache/AmcacheOld.cs:383-386 | the link date decodes iff it is a long number of seconds naming a representable instant, and is that instant; a bad number throws the parser's exception, an unrepresentable one out-of-range |
| FileDecoder.FileTimeRule | Amcache/AmcacheOld.cs:391-409 | a file time decodes iff it is a long naming a representable instant, and is that instant; a bad number throws the parser's exception, an unrepresentable one out-of-range |
| FileDecoder.FileValueStepWarning | Amcache/AmcacheOld.cs:337-427 | a value writes a warning exactly when its name is hexadecimal but no case label, and the warning carries that code |
| FileDecoder.FileValueStepLink | Amcache/AmcacheOld.cs:337-420 | only a ProgramID value changes the ProgramID field; the link flag is set only by a ProgramID value whose ID exists; a ProgramID value throws exactly when its ID is shared |
| FileDecoder.FileValueStepText | Amcache/AmcacheOld.cs:337-423 | a stored value sets a text field to its data exactly when its name reads as that field's code, and leaves it alone otherwise |
| FileDecoder.FileValueStepRejects | Amcache/AmcacheOld.cs:337-420 | a value throws e exactly when its name does not parse as hex with e, or its case's decoding fails with e, or it is a ProgramID whose ID two Programs entries share and e is more than one match |
| FileDecoder.FileFailureIsFinal | Amcache/AmcacheOld.cs:333-461 | once a value throws, the later values of the key have no effect |
| FileDecoder.FileFoldFailure | Amcache/AmcacheOld.cs:332-461 | a file key's values fail exactly when one of them throws; a key decodes exactly when none does |
| FileDecoder.FileFoldSucceeds | Amcache/AmcacheOld.cs:332-461 | a file key none of whose values throws decodes |
| FileDecoder.FileFoldFails | Amcache/AmcacheOld.cs:332-461 | a file key with one value that throws fails |
| FileDecoder.FileFirstFailure | Amcache/AmcacheOld.cs:332-461 | a file key that fails fails with the exception of the first value that throws |
| FileDecoder.FileFoldDecodes | Amcache/AmcacheOld.cs:335-427 | in a file key that decodes, every value name is hexadecimal and every value with a case label decodes |
| FileDecoder.FileWarnings | Amcache/AmcacheOld.cs:424-426 | a key that decodes logs one warning per unknown code |
| FileDecoder.FileTextFields | Amcache/AmcacheOld.cs:335-427 | in a key that decodes, every text field, the full path and the ProgramID among them, holds the data of the last value with its code, or "" when there is none |
| FileDecoder.NamesKnownProgramWitness | Amcache/AmcacheOld.cs:411-419 | the linking condition holds exactly when some ProgramID value names an existing ID |
| FileDecoder.FileLinked | Amcache/AmcacheOld.cs:411-419 | a key that decodes is linked iff some ProgramID value names an existing ID |
| FileDecoder.FileLinkedLookup | Amcache/AmcacheOld.cs:414-446 | a linked key that decodes never carries an ID that two Programs entries share |
| FileDecoder.BuildFileEntry | Amcache/AmcacheOld.cs:437-442 | the entry exists iff both last-write times exist, and otherwise fails with the missing value; it carries the staged fields, the two key names, the two last-write times and the ProgramID |
| FileDecoder.DecodeFileValues | Amcache/AmcacheOld.cs:335-427 | the loop over a key's values yields the fold, stopping at the first exception |
| Linker.ProgramsPassAppends | Amcache/AmcacheOld.cs:162-291 | the Programs pass only appends, at most one entry per key, and leaves the File results and the log before it unchanged |
| Linker.ProgramsPassFresh | Amcache/AmcacheOld.cs:279-284 | every appended entry has no File entries, has Dword14 and Dword15 at 0, and is named after one of the keys |
| Linker.ProgramsPassStep | Amcache/AmcacheOld.cs:279-290 | a key that decodes appends exactly its entry; one that does not appends nothing |
| Linker.Link | Amcache/AmcacheOld.cs:448 | the chosen entry gains the File entry at the end; all other entries, and every entry's own data, are unchanged |
| Linker.LinkAddsOne | Amcache/AmcacheOld.cs:448 | linking adds exactly one to the number of linked File entries |
| Linker.PlaceRecordTotal | Amcache/AmcacheOld.cs:430-435 | the total grows by one exactly when the values decode and the full path is not empty |
| Linker.PlaceRecordPlaced | Amcache/AmcacheOld.cs:437-453 | one File entry is placed exactly when the record counts, both times exist and any link it claims resolves |
| Linker.PlaceRecordGrows | Amcache/AmcacheOld.cs:444-453 | the Programs entries' own data is untouched and every list only grows at its end |
| Linker.PlaceRecordWellPlaced | Amcache/AmcacheOld.cs:444-453 | every File entry sits under the Programs entry whose ID it carries, with its name, or in the unassociated list as "Unassociated" |
| Linker.FailedRecordDropped | Amcache/AmcacheOld.cs:456-461 | a key whose values throw is dropped with three error lines and is not counted |
| Linker.EmptyPathSkipped | Amcache/AmcacheOld.cs:430-433 | a key with no full path is skipped: not counted, no entry, no error |
| Linker.MatchingFileJoinsItsProgram | Amcache/AmcacheOld.cs:444-449 | a linked key joins its Programs entry's list with that entry's name; the unassociated list is unchanged |
| Linker.UnmatchedFileIsUnassociated | Amcache/AmcacheOld.cs:450-454 | an unlinked key is appended to the unassociated list as "Unassociated"; the Programs entries are unchanged |
| Linker.StaleLinkIsDropped | Amcache/AmcacheOld.cs:444-447 | a linked key whose last ProgramID names no entry is counted, then dropped with a null-reference error |
| Linker.VolumePassEffect | Amcache/AmcacheOld.cs:301-463 | over a volume, the total grows by the number of keys that count; no more entries are placed than counted; the lists only grow |
| Linker.FilesPassEffect | Amcache/AmcacheOld.cs:298-463 | over all volumes, the same as for one volume |
| Linker.MissingKeysYieldNothing | Amcache/AmcacheOld.cs:152-156 | a hive without either key yields empty lists, a zero total and one error line |
| Linker.AfterProgramsStartsEmpty | Amcache/AmcacheOld.cs:158-296 | after the Programs pass no File entry is counted or placed, and the log before it is unchanged |
| Linker.AfterProgramsFresh | Amcache/AmcacheOld.cs:162-291 | every entry of the Programs pass is fresh and named after a key under `Root\Programs` |
| Linker.FilesPassKeepsPrograms | Amcache/AmcacheOld.cs:298-463 | the File pass keeps every Programs entry's own data and names, and only extends the log |
| Linker.ScanTreeCounts | Amcache/AmcacheOld.cs:143-463 | the total is the number of file keys that count; the placed entries are at most the total; every entry sits where it belongs |
| Linker.ScanTreeKeepsPrograms | Amcache/AmcacheOld.cs:143-463 | the Programs entries keep the data the Programs pass gave them; each is named after a Programs key with Dword14 and Dword15 at 0; the log before the run is kept |
| Amcache.OpenHive | Amcache/AmcacheOld.cs:49-140 | permission is refused iff the hive is locked and the process is not elevated, with nothing logged; abort iff dirty with no logs and replay not waived; the replay fails iff it is attempted and the library gives no tree; a clean or waived hive is read as stored; a replayed hive is read as replayed; the log is the rerouting line when locked, then the dirty-hive decision's lines |
| Amcache.CleanHiveIgnoresReplayFlag | Amcache/AmcacheOld.cs:87 | a clean hive gives the same run whether or not replay is waived |
| Amcache.DirtyWithoutLogsAborts | Amcache/AmcacheOld.cs:97-103 | a dirty hive with no logs and replay not waived fails after one warning and reads nothing |
| Amcache.WaivedReplayReadsStoredImage | Amcache/AmcacheOld.cs:104-107 | with replay waived, the run reads the hive as stored; its opening lines are the rerouting line when locked, then, when dirty, the no-logs or the logs-ignored warning |
| Amcache.EngineOutputConsistent | Amcache/AmcacheOld.cs:430-453 | a successful run places no more File entries than its total, each where it belongs |
| Amcache.SingleOrDefault | Amcache/AmcacheOld.cs:446 | the scan of the Programs list finds what FindProgram specifies |
| Amcache.AmcacheOld.constructor | Amcache/AmcacheOld.cs:143-160 | the three results and the log are those of ScanTree |
| Amcache.AmcacheOld.ReadPrograms | Amcache/AmcacheOld.cs:162-291 | the Programs loop yields what ProgramsPass specifies |
| Amcache.AmcacheOld.ReadProgram | Amcache/AmcacheOld.cs:164-291 | one Programs key yields what ProgramRecord specifies: its lines logged, its entry appended when it decodes |
| Amcache.AmcacheOld.ReadFiles | Amcache/AmcacheOld.cs:298-463 | the loop over the volume keys yields what FilesPass specifies |
| Amcache.AmcacheOld.ReadVolume | Amcache/AmcacheOld.cs:301-462 | the loop over one volume's file keys yields what VolumePass specifies |
| Amcache.AmcacheOld.ReadFile | Amcache/AmcacheOld.cs:303-461 | one file key, linked in place, yields what FileRecord specifies |
| Amcache.AmcacheOld.PlaceFile | Amcache/AmcacheOld.cs:427-461 | what follows a file key's decoded values (its warnings, the count, the entry, the link in place or the error lines) yields what PlaceRecord specifies |
| Amcache.Load | Amcache/AmcacheOld.cs:39-463 | the constructor succeeds iff the engine does, with the engine's three results, and logs the engine's lines |

## Left out

- Opening the hive, globbing `<hive>.LOG?` files and raw-copying locked files are file-system I/O. The snapshot takes their results as data: the acquisition, the log names found on disk, and the raw copies. This includes the `"."` fallback for an empty directory name.
- The hive library is not part of this model: parsing, `GetKey` and `ProcessTransactionLogs`. The snapshot carries the key tree as stored and the key tree after replay. When the replay throws, the tree after replay is absent.
- The `recoverDeleted` argument is ignored by the source. Deleted-record recovery is switched on only when the hive is opened directly (Amcache/AmcacheOld.cs:51-54); the hive rebuilt from the raw copy (Amcache/AmcacheOld.cs:84) keeps the hive library's default. Deleted records are the hive library's business, so neither setting has an effect on the model.
- The Serilog message texts, the exception objects and `Console.WriteLine` are left out. Each message is a tag carrying the same parameters. The "Key data" line carries the key's path in place of the key's rendering.
- `ProgramsEntryOld` and `FileEntryOld` are not part of this model. Their constructors are taken as records of their arguments. A Programs entry's ProgramID is taken to be its key name, the only identifier passed to it.
- `ToUniversalTime` and the local offset of `FromFileTime` are not modelled. Instants are UTC ticks, so a local offset that pushes an instant near year 1 or 9999 out of range is not captured.
- Numbers.ParseBounded: culture-specific signs and white space, trailing NUL characters and parentheses are not modelled. The invariant culture's default style is assumed.
- Amcache.AmcacheOld.ReadFile: `TotalFileEntries` is a 32-bit `int` in the source. The model counts with `nat`, so a wrap past 2^31 − 1 records is not captured.
- Amcache.AmcacheOld.ReadFile: `program.FileEntries.Add(fe)` mutates a shared object. The model replaces that element of the sequence instead. No other reference to the entry exists, so the results are the same.
- Amcache.AmcacheOld.ReadProgram: warnings for a key are written to the logger when the key is done, not value by value. The order of the lines is the same.
- Amcache.AmcacheOld.ReadFile: warnings for a file key are likewise written to the logger when the key's values are all decoded, not value by value. The order of the lines is the same.
- Exceptions other than the parse, range, lookup and null-value failures modelled here are left out. This covers out of memory and errors inside the hive library while reading keys.
