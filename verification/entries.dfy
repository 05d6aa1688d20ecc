/**
 * The records the engine produces: a Programs entry (ProgramsEntryOld) and a
 * File entry (FileEntryOld). Both constructors are taken as plain records of
 * their arguments; a Programs entry's ProgramID is its key name.
 */
module Entries {
  import opened Wrappers
  import opened Registry
  import opened Logging

  /** The Program staging locals, one per value token (times in UTC ticks). */
  datatype ProgramFields = ProgramFields(
    programName0: string,
    programVersion1: string,
    vendorName2: string,
    localeId3: string,
    dword5: int,
    installSource6: string,
    uninstallKey7: string,
    epochA: Option<int>,
    epochB: Option<int>,
    pathListD: string,
    guidF: string,
    guid10: string,
    uninstallGuid11: string,
    guid12: string,
    dword13: int,
    dword14: int,
    dword15: int,
    unknownBytes16: seq<byte>,
    qword17: int,
    dword18: int,
    rawFiles: string)

  const InitialProgramFields := ProgramFields("", "", "", "", 0, "", "", None, None, "", "", "", "", "",
                                              0, 0, 0, [], 0, 0, "")

  /** The File staging locals, one per value code (times in UTC ticks). */
  datatype FileFields = FileFields(
    productName: string,
    companyName: string,
    fileVersionNumber: string,
    languageCode: Option<int>,
    switchBackContext: string,
    fileVersionString: string,
    fileSize: Option<int>,
    sizeOfImage: Option<int>,
    peHeaderHash: string,
    peHeaderChecksum: Option<int>,
    binProductVersion: int,
    binFileVersion: int,
    fileDescription: string,
    linkerVersion: int,
    linkDate: Option<int>,
    binaryType: int,
    lastModified: Option<int>,
    created: Option<int>,
    fullPath: string,
    isLocal: int,
    guessProgramId: int,
    lastModifiedStore: Option<int>,
    programId: string,
    sha1: string)

  const InitialFileFields := FileFields("", "", "", None, "", "", None, None, "", None, 0, 0, "", 0, None, 0,
                                        None, None, "", 0, 0, None, "", "")

  /** A File entry; `programName` is set when the entry is linked. */
  datatype FileEntry = FileEntry(
    fields: FileFields,
    volumeKeyName: string,
    volumeLastWrite: int,
    fileKeyName: string,
    fileLastWrite: int,
    programName: string)
  {
    function ProgramID(): string {
      fields.programId
    }
  }

  /** A Programs entry and the File entries linked to it, in scan order. */
  datatype ProgramEntry = ProgramEntry(
    fields: ProgramFields,
    keyName: string,
    lastWrite: int,
    fileEntries: seq<FileEntry>)
  {
    function ProgramID(): string {
      keyName
    }

    function ProgramName(): string {
      fields.programName0
    }
  }

  /** One staged field, read back for stating which fields a value changed. */
  datatype FieldValue =
    | Text(text: string)
    | Number(number: int)
    | Optional(optional: Option<int>)
    | Bytes(bytes: seq<byte>)
    | Absent

  /**
   * A decoded value carries what the parser read, as a number or as a
   * nullable number, and fails exactly as the parser failed.
   */
  predicate StoresParsed(x: Result<FieldValue, Failure>, parsed: Result<int, Failure>, nullable: bool) {
    (x.Success? <==> parsed.Success?) &&
    (parsed.Success? ==> x.value == (if nullable then Optional(Some(parsed.value)) else Number(parsed.value))) &&
    (parsed.Failure? ==> x.error == parsed.error)
  }

  /** A parse result as a field value. */
  function AsNumber(r: Result<int, Failure>): (x: Result<FieldValue, Failure>)
    ensures x.Success? <==> r.Success?
    ensures StoresParsed(x, r, false)
  {
    match r
    case Success(n) => Success(Number(n))
    case Failure(e) => Failure(e)
  }

  /** A parse result as a nullable field value. */
  function AsOptional(r: Result<int, Failure>): (x: Result<FieldValue, Failure>)
    ensures x.Success? <==> r.Success?
    ensures StoresParsed(x, r, true)
  {
    match r
    case Success(n) => Success(Optional(Some(n)))
    case Failure(e) => Failure(e)
  }
}
