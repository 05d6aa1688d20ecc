/**
 * Decoding one file key under `Root\File\<volume>` into staged File fields:
 * every value name is a hexadecimal code, dispatched to one staging field.
 * The ProgramID code also looks its ID up among the Programs entries already
 * read, and marks the record as linked when exactly one entry has it.
 */
module FileDecoder {
  import opened Wrappers
  import opened Registry
  import opened Logging
  import opened Numbers
  import opened Time
  import opened Entries
  import opened Staging

  /** The staging locals of a file key and the `hasLinkedProgram` flag. */
  datatype FileStage = FileStage(fields: FileFields, hasLinkedProgram: bool)

  const InitialFileStage := FileStage(InitialFileFields, false)

  /** The outcome of `SingleOrDefault` over the Programs entries' IDs. */
  datatype Lookup =
    | NoMatch             // null
    | Unique(index: nat)  // the one entry with that ID
    | Duplicate           // two or more entries: an exception

  /** `SingleOrDefault(t => t.ProgramID == id)` over the IDs, in list order. */
  function FindProgram(ids: seq<string>, id: string): (r: Lookup)
    ensures r == NoMatch <==> id !in ids
    ensures r.Unique? ==>
              r.index < |ids| && ids[r.index] == id &&
              forall j :: 0 <= j < |ids| && j != r.index ==> ids[j] != id
    ensures r == Duplicate ==> exists j, k :: 0 <= j < k < |ids| && ids[j] == id && ids[k] == id
    decreases |ids|
  {
    if ids == [] then NoMatch
    else
      var front := ids[..|ids| - 1];
      var rest := FindProgram(front, id);
      assert forall j :: 0 <= j < |front| ==> front[j] == ids[j];
      if ids[|ids| - 1] != id then rest
      else match rest
        case NoMatch => Unique(|ids| - 1)
        case Unique(i) => Duplicate
        case Duplicate => Duplicate
  }

  /** The staging fields, one per case of the switch on the value code. */
  datatype FileField =
    | ProductName | CompanyName | FileVersionNumber | LanguageCode | SwitchBackContext
    | FileVersionString | FileSize | SizeOfImage | PEHeaderHash | PEHeaderChecksum
    | BinProductVersion | BinFileVersion | FileDescription | LinkerVersion | LinkDate
    | BinaryType | LastModified | Created | FullPath | IsLocal | LastModifiedStore
    | ProgramId | GuessProgramId | Sha1

  /** The case labels of the switch on the value code (the class's constants). */
  function FileFieldOf(code: int): Option<FileField> {
    match code
    case 0x0 => Some(ProductName)
    case 0x1 => Some(CompanyName)
    case 0x2 => Some(FileVersionNumber)
    case 0x3 => Some(LanguageCode)
    case 0x4 => Some(SwitchBackContext)
    case 0x5 => Some(FileVersionString)
    case 0x6 => Some(FileSize)
    case 0x7 => Some(SizeOfImage)
    case 0x8 => Some(PEHeaderHash)
    case 0x9 => Some(PEHeaderChecksum)
    case 0xa => Some(BinProductVersion)
    case 0xb => Some(BinFileVersion)
    case 0xc => Some(FileDescription)
    case 0xd => Some(LinkerVersion)
    case 0xf => Some(LinkDate)
    case 0x10 => Some(BinaryType)
    case 0x11 => Some(LastModified)
    case 0x12 => Some(Created)
    case 0x15 => Some(FullPath)
    case 0x16 => Some(IsLocal)
    case 0x17 => Some(LastModifiedStore)
    case 0x100 => Some(ProgramId)
    case 0x101 => Some(Sha1)
    case 0x106 => Some(GuessProgramId)
    case _ => None
  }

  /** The code of each field's constant. */
  function CodeOf(field: FileField): int {
    match field
    case ProductName => 0x0
    case CompanyName => 0x1
    case FileVersionNumber => 0x2
    case LanguageCode => 0x3
    case SwitchBackContext => 0x4
    case FileVersionString => 0x5
    case FileSize => 0x6
    case SizeOfImage => 0x7
    case PEHeaderHash => 0x8
    case PEHeaderChecksum => 0x9
    case BinProductVersion => 0xa
    case BinFileVersion => 0xb
    case FileDescription => 0xc
    case LinkerVersion => 0xd
    case LinkDate => 0xf
    case BinaryType => 0x10
    case LastModified => 0x11
    case Created => 0x12
    case FullPath => 0x15
    case IsLocal => 0x16
    case LastModifiedStore => 0x17
    case ProgramId => 0x100
    case Sha1 => 0x101
    case GuessProgramId => 0x106
  }

  /** The switch and the constants agree: a code selects a field exactly when it is that field's constant. */
  lemma CodeTableIsExact(code: int, field: FileField)
    ensures FileFieldOf(code) == Some(field) <==> CodeOf(field) == code
  {
  }

  /** 0xe, 0x13 and 0x14 lie between the constants but are not case labels. */
  lemma CodeTableGaps()
    ensures FileFieldOf(0xe).None? && FileFieldOf(0x13).None? && FileFieldOf(0x14).None?
  {
  }

  /** The kind of value each field holds. */
  predicate FitsFile(field: FileField, x: FieldValue) {
    match field
    case LanguageCode | FileSize | SizeOfImage | PEHeaderChecksum
       | LinkDate | LastModified | Created | LastModifiedStore => x.Optional?
    case BinProductVersion | BinFileVersion | LinkerVersion | BinaryType | IsLocal | GuessProgramId => x.Number?
    case _ => x.Text?
  }

  /** A number of seconds or a FILETIME, then the conversion to an instant. */
  function AsInstant(r: Result<int, Failure>, fromUnixSeconds: bool): (x: Result<FieldValue, Failure>)
    ensures x.Success? ==> x.value.Optional? && x.value.optional.Some?
  {
    match r
    case Failure(e) => Failure(e)
    case Success(n) =>
      var instant := if fromUnixSeconds then FromUnixTimeSeconds(n) else FromFileTime(n);
      if instant.None? then Failure(TimeOutOfRange) else Success(Optional(instant))
  }

  /**
   * How a case decodes the value for its field: text as it is; `int.Parse`,
   * `uint.Parse`, `long.Parse` or `ulong.Parse` as the local's type demands;
   * the link date from seconds and the three file times from FILETIMEs.
   */
  function DecodeForFileField(field: FileField, v: Value): (r: Result<FieldValue, Failure>)
    ensures r.Success? ==> FitsFile(field, r.value)
  {
    match field
    case LanguageCode | FileSize | SizeOfImage => AsOptional(ParseInt32(v.data))
    case PEHeaderChecksum => AsOptional(ParseUInt32(v.data))
    case BinProductVersion => AsNumber(ParseInt64(v.data))
    case BinFileVersion => AsNumber(ParseUInt64(v.data))
    case LinkerVersion | BinaryType | IsLocal | GuessProgramId => AsNumber(ParseInt32(v.data))
    case LinkDate => AsInstant(ParseInt64(v.data), true)
    case LastModified | Created | LastModifiedStore => AsInstant(ParseInt64(v.data), false)
    case _ => Success(Text(v.data))
  }

  /** The assignment to a staging local. */
  function SetFileField(f: FileFields, field: FileField, x: FieldValue): FileFields
    requires FitsFile(field, x)
  {
    match field
    case ProductName => f.(productName := x.text)
    case CompanyName => f.(companyName := x.text)
    case FileVersionNumber => f.(fileVersionNumber := x.text)
    case LanguageCode => f.(languageCode := x.optional)
    case SwitchBackContext => f.(switchBackContext := x.text)
    case FileVersionString => f.(fileVersionString := x.text)
    case FileSize => f.(fileSize := x.optional)
    case SizeOfImage => f.(sizeOfImage := x.optional)
    case PEHeaderHash => f.(peHeaderHash := x.text)
    case PEHeaderChecksum => f.(peHeaderChecksum := x.optional)
    case BinProductVersion => f.(binProductVersion := x.number)
    case BinFileVersion => f.(binFileVersion := x.number)
    case FileDescription => f.(fileDescription := x.text)
    case LinkerVersion => f.(linkerVersion := x.number)
    case LinkDate => f.(linkDate := x.optional)
    case BinaryType => f.(binaryType := x.number)
    case LastModified => f.(lastModified := x.optional)
    case Created => f.(created := x.optional)
    case FullPath => f.(fullPath := x.text)
    case IsLocal => f.(isLocal := x.number)
    case LastModifiedStore => f.(lastModifiedStore := x.optional)
    case ProgramId => f.(programId := x.text)
    case GuessProgramId => f.(guessProgramId := x.number)
    case Sha1 => f.(sha1 := x.text)
  }

  function FileFieldValue(f: FileFields, field: FileField): FieldValue {
    match field
    case ProductName => Text(f.productName)
    case CompanyName => Text(f.companyName)
    case FileVersionNumber => Text(f.fileVersionNumber)
    case LanguageCode => Optional(f.languageCode)
    case SwitchBackContext => Text(f.switchBackContext)
    case FileVersionString => Text(f.fileVersionString)
    case FileSize => Optional(f.fileSize)
    case SizeOfImage => Optional(f.sizeOfImage)
    case PEHeaderHash => Text(f.peHeaderHash)
    case PEHeaderChecksum => Optional(f.peHeaderChecksum)
    case BinProductVersion => Number(f.binProductVersion)
    case BinFileVersion => Number(f.binFileVersion)
    case FileDescription => Text(f.fileDescription)
    case LinkerVersion => Number(f.linkerVersion)
    case LinkDate => Optional(f.linkDate)
    case BinaryType => Number(f.binaryType)
    case LastModified => Optional(f.lastModified)
    case Created => Optional(f.created)
    case FullPath => Text(f.fullPath)
    case IsLocal => Number(f.isLocal)
    case LastModifiedStore => Optional(f.lastModifiedStore)
    case ProgramId => Text(f.programId)
    case GuessProgramId => Number(f.guessProgramId)
    case Sha1 => Text(f.sha1)
  }

  /** An assignment changes no field but its own, which then holds the value assigned. */
  lemma SetFileFieldChangesOnlyItsField(f: FileFields, field: FileField, x: FieldValue, other: FileField)
    requires FitsFile(field, x)
    ensures FileFieldValue(SetFileField(f, field, x), field) == x
    ensures other != field ==> FileFieldValue(SetFileField(f, field, x), other) == FileFieldValue(f, other)
  {
    if field in {LanguageCode, FileSize, SizeOfImage, PEHeaderChecksum, LinkDate, LastModified, Created, LastModifiedStore} {
      SetOptionalFileField(f, field, x, other);
    } else if field in {BinProductVersion, BinFileVersion, LinkerVersion, BinaryType, IsLocal, GuessProgramId} {
      SetNumberFileField(f, field, x, other);
    } else {
      SetTextFileField(f, field, x, other);
    }
  }

  lemma SetOptionalFileField(f: FileFields, field: FileField, x: FieldValue, other: FileField)
    requires field in {LanguageCode, FileSize, SizeOfImage, PEHeaderChecksum, LinkDate, LastModified, Created, LastModifiedStore}
    requires FitsFile(field, x)
    ensures FileFieldValue(SetFileField(f, field, x), field) == x
    ensures other != field ==> FileFieldValue(SetFileField(f, field, x), other) == FileFieldValue(f, other)
  {
  }

  lemma SetNumberFileField(f: FileFields, field: FileField, x: FieldValue, other: FileField)
    requires field in {BinProductVersion, BinFileVersion, LinkerVersion, BinaryType, IsLocal, GuessProgramId}
    requires FitsFile(field, x)
    ensures FileFieldValue(SetFileField(f, field, x), field) == x
    ensures other != field ==> FileFieldValue(SetFileField(f, field, x), other) == FileFieldValue(f, other)
  {
  }

  lemma SetTextFileField(f: FileFields, field: FileField, x: FieldValue, other: FileField)
    requires field in {ProductName, CompanyName, FileVersionNumber, SwitchBackContext, FileVersionString, PEHeaderHash, FileDescription, FullPath, ProgramId, Sha1}
    requires FitsFile(field, x)
    ensures FileFieldValue(SetFileField(f, field, x), field) == x
    ensures other != field ==> FileFieldValue(SetFileField(f, field, x), other) == FileFieldValue(f, other)
  {
  }

  /**
   * The parsed values keep the range of the local's type: a checksum is a
   * uint, a product version a long, a file version a ulong, and every
   * decoded instant is representable.
   */
  lemma DecodedFileValueRanges(field: FileField, v: Value)
    ensures var r := DecodeForFileField(field, v);
            r.Success? && field == PEHeaderChecksum ==> 0 <= r.value.optional.value <= UInt32Max
    ensures var r := DecodeForFileField(field, v);
            r.Success? && field == BinProductVersion ==> Int64Min <= r.value.number <= Int64Max
    ensures var r := DecodeForFileField(field, v);
            r.Success? && field == BinFileVersion ==> 0 <= r.value.number <= UInt64Max
    ensures var r := DecodeForFileField(field, v);
            r.Success? && field in {LinkDate, LastModified, Created, LastModifiedStore} ==>
              Representable(r.value.optional.value)
  {
  }

  /** The fields whose case stores the value's text unparsed. */
  predicate IsTextField(field: FileField) {
    field in {ProductName, CompanyName, FileVersionNumber, SwitchBackContext, FileVersionString,
              PEHeaderHash, FileDescription, FullPath, ProgramId, Sha1}
  }

  /**
   * What each number case stores, tied to the value: the language code, file
   * size and image size are nullable ints, the checksum a nullable uint, the
   * product version a long, the file version a ulong, and the linker version,
   * binary type, IsLocal flag and guessed program ID ints, each as its parser
   * reads it, or the parser's exception.
   */
  lemma DecodedFileValue(field: FileField, v: Value)
    ensures field in {LanguageCode, FileSize, SizeOfImage} ==>
              StoresParsed(DecodeForFileField(field, v), ParseInt32(v.data), true)
    ensures field == PEHeaderChecksum ==> StoresParsed(DecodeForFileField(field, v), ParseUInt32(v.data), true)
    ensures field == BinProductVersion ==> StoresParsed(DecodeForFileField(field, v), ParseInt64(v.data), false)
    ensures field == BinFileVersion ==> StoresParsed(DecodeForFileField(field, v), ParseUInt64(v.data), false)
    ensures field in {LinkerVersion, BinaryType, IsLocal, GuessProgramId} ==>
              StoresParsed(DecodeForFileField(field, v), ParseInt32(v.data), false)
  {
    if field in {LanguageCode, FileSize, SizeOfImage} {
      NullableIntDecoded(field, v);
    } else if field == PEHeaderChecksum {
      ChecksumDecoded(v);
    } else if field == BinProductVersion {
      ProductVersionDecoded(v);
    } else if field == BinFileVersion {
      FileVersionDecoded(v);
    } else if field in {LinkerVersion, BinaryType, IsLocal, GuessProgramId} {
      IntDecoded(field, v);
    }
  }

  lemma NullableIntDecoded(field: FileField, v: Value)
    requires field in {LanguageCode, FileSize, SizeOfImage}
    ensures StoresParsed(DecodeForFileField(field, v), ParseInt32(v.data), true)
  {
    var parsed := ParseInt32(v.data);
    assert DecodeForFileField(field, v) == AsOptional(parsed);
  }

  lemma ChecksumDecoded(v: Value)
    ensures StoresParsed(DecodeForFileField(PEHeaderChecksum, v), ParseUInt32(v.data), true)
  {
    var parsed := ParseUInt32(v.data);
    assert DecodeForFileField(PEHeaderChecksum, v) == AsOptional(parsed);
  }

  lemma ProductVersionDecoded(v: Value)
    ensures StoresParsed(DecodeForFileField(BinProductVersion, v), ParseInt64(v.data), false)
  {
    var parsed := ParseInt64(v.data);
    assert DecodeForFileField(BinProductVersion, v) == AsNumber(parsed);
  }

  lemma FileVersionDecoded(v: Value)
    ensures StoresParsed(DecodeForFileField(BinFileVersion, v), ParseUInt64(v.data), false)
  {
    var parsed := ParseUInt64(v.data);
    assert DecodeForFileField(BinFileVersion, v) == AsNumber(parsed);
  }

  lemma IntDecoded(field: FileField, v: Value)
    requires field in {LinkerVersion, BinaryType, IsLocal, GuessProgramId}
    ensures StoresParsed(DecodeForFileField(field, v), ParseInt32(v.data), false)
  {
    var parsed := ParseInt32(v.data);
    assert DecodeForFileField(field, v) == AsNumber(parsed);
  }

  /** Exactly the text fields store the value's text as it is. */
  lemma TextDecodedAsIs(field: FileField, v: Value)
    ensures IsTextField(field) <==> DecodeForFileField(field, v) == Success(Text(v.data))
  {
  }

  /**
   * The link date decodes exactly when it is a long number of seconds naming
   * a representable instant, and is that instant; a bad number throws the
   * parser's exception and an unrepresentable one throws out of range.
   */
  lemma LinkDateRule(v: Value)
    ensures DecodeForFileField(LinkDate, v).Success? <==>
              ParseInt64(v.data).Success? && FromUnixTimeSeconds(ParseInt64(v.data).value).Some?
    ensures DecodeForFileField(LinkDate, v).Success? ==>
              DecodeForFileField(LinkDate, v).value == Optional(FromUnixTimeSeconds(ParseInt64(v.data).value))
    ensures ParseInt64(v.data).Failure? ==> DecodeForFileField(LinkDate, v) == Failure(ParseInt64(v.data).error)
    ensures ParseInt64(v.data).Success? && FromUnixTimeSeconds(ParseInt64(v.data).value).None? ==>
              DecodeForFileField(LinkDate, v) == Failure(TimeOutOfRange)
  {
  }

  /**
   * A file time decodes exactly when it is a long naming a representable
   * instant, and is that instant; the failures are as for the link date.
   */
  lemma FileTimeRule(field: FileField, v: Value)
    requires field in {LastModified, Created, LastModifiedStore}
    ensures DecodeForFileField(field, v).Success? <==>
              ParseInt64(v.data).Success? && FromFileTime(ParseInt64(v.data).value).Some?
    ensures DecodeForFileField(field, v).Success? ==>
              DecodeForFileField(field, v).value == Optional(FromFileTime(ParseInt64(v.data).value))
    ensures ParseInt64(v.data).Failure? ==> DecodeForFileField(field, v) == Failure(ParseInt64(v.data).error)
    ensures ParseInt64(v.data).Success? && FromFileTime(ParseInt64(v.data).value).None? ==>
              DecodeForFileField(field, v) == Failure(TimeOutOfRange)
  {
    assert DecodeForFileField(field, v) == AsInstant(ParseInt64(v.data), false);
  }

  /**
   * The effect of one value on a file key's staging state: the value name
   * parsed as hexadecimal (which may throw), the switch on the code, whose
   * default case writes one warning, and for ProgramID the first lookup.
   */
  function FileValueStep(keyPath: string, st: FileStage, v: Value, ids: seq<string>): Step<FileStage> {
    match ParseHex32(v.name)
    case Failure(e) => Rejected(e)
    case Success(code) =>
      match FileFieldOf(code)
      case None => Unrecognised(UnknownFileValue(keyPath, code))
      case Some(field) =>
        match DecodeForFileField(field, v)
        case Failure(e) => Rejected(e)
        case Success(x) =>
          var fields := SetFileField(st.fields, field, x);
          if field != ProgramId then Stored(st.(fields := fields))
          else
            match FindProgram(ids, v.data)
            case NoMatch => Stored(st.(fields := fields))
            case Unique(_) => Stored(FileStage(fields, true))
            case Duplicate => Rejected(MoreThanOneMatch)
  }

  /**
   * The exception a file value throws, whatever was staged before it: the
   * hex parser's for its name, its case's decoder's, or more than one match
   * for a ProgramID that two Programs entries share; none for an unknown code.
   */
  function FileValueError(v: Value, ids: seq<string>): Option<Failure> {
    match ParseHex32(v.name)
    case Failure(e) => Some(e)
    case Success(code) =>
      match FileFieldOf(code)
      case None => None
      case Some(field) =>
        if DecodeForFileField(field, v).Failure? then Some(DecodeForFileField(field, v).error)
        else if field == ProgramId && FindProgram(ids, v.data).Duplicate? then Some(MoreThanOneMatch)
        else None
  }

  /**
   * One value throws `e` exactly when its name does not parse with `e`, or its
   * case's decoding fails with `e`, or it is a ProgramID whose ID two Programs
   * entries share and `e` is more than one match.
   */
  lemma FileValueStepRejects(keyPath: string, st: FileStage, v: Value, ids: seq<string>, e: Failure)
    ensures FileValueStep(keyPath, st, v, ids) == Rejected(e) <==>
              ParseHex32(v.name) == Failure(e) ||
              (ParseHex32(v.name).Success? && FileFieldOf(ParseHex32(v.name).value).Some? &&
               (DecodeForFileField(FileFieldOf(ParseHex32(v.name).value).value, v) == Failure(e) ||
                (FileFieldOf(ParseHex32(v.name).value) == Some(ProgramId) &&
                 FindProgram(ids, v.data).Duplicate? && e == MoreThanOneMatch)))
    ensures FileValueStep(keyPath, st, v, ids) == Rejected(e) <==> FileValueError(v, ids) == Some(e)
    ensures FileValueStep(keyPath, st, v, ids).Rejected? <==> FileValueError(v, ids).Some?
  {
    var code := ParseHex32(v.name);
    if code.Success? && FileFieldOf(code.value) == Some(ProgramId) {
      TextDecodedAsIs(ProgramId, v);
    }
  }

  /** The staging state after the values of a file key, in order; the first exception ends it. */
  function FileValuesFold(keyPath: string, values: seq<Value>, ids: seq<string>): Scan<FileStage>
    decreases |values|
  {
    if values == [] then Scan(InitialFileStage, [], None)
    else
      var prior := FileValuesFold(keyPath, values[..|values| - 1], ids);
      if prior.failure.Some? then prior
      else Advance(prior, FileValueStep(keyPath, prior.stage, values[|values| - 1], ids))
  }

  /** One more value: the fold over the first i + 1 values advances the fold over the first i. */
  lemma FileValuesFoldNext(keyPath: string, values: seq<Value>, ids: seq<string>, i: nat)
    requires i < |values| && FileValuesFold(keyPath, values[..i], ids).failure.None?
    ensures FileValuesFold(keyPath, values[..i + 1], ids) ==
            Advance(FileValuesFold(keyPath, values[..i], ids),
                    FileValueStep(keyPath, FileValuesFold(keyPath, values[..i], ids).stage, values[i], ids))
  {
    assert values[..i + 1][..i] == values[..i];
  }

  lemma {:induction false} FileFailureIsFinal(keyPath: string, values: seq<Value>, ids: seq<string>, k: nat)
    requires k <= |values|
    requires FileValuesFold(keyPath, values[..k], ids).failure.Some?
    ensures FileValuesFold(keyPath, values, ids) == FileValuesFold(keyPath, values[..k], ids)
    decreases |values|
  {
    if k < |values| {
      var front := values[..|values| - 1];
      assert front[..k] == values[..k];
      FileFailureIsFinal(keyPath, front, ids, k);
    } else {
      assert values[..k] == values;
    }
  }

  /** A file key's values fail exactly when one of them throws. */
  lemma FileFoldFailure(keyPath: string, values: seq<Value>, ids: seq<string>)
    ensures FileValuesFold(keyPath, values, ids).failure.None? <==>
              forall j :: 0 <= j < |values| ==> FileValueError(values[j], ids).None?
  {
    if forall j :: 0 <= j < |values| ==> FileValueError(values[j], ids).None? {
      FileFoldSucceeds(keyPath, values, ids);
    } else {
      var j :| 0 <= j < |values| && FileValueError(values[j], ids).Some?;
      FileFoldFails(keyPath, values, ids, j);
    }
  }

  lemma {:induction false} FileFoldSucceeds(keyPath: string, values: seq<Value>, ids: seq<string>)
    requires forall j :: 0 <= j < |values| ==> FileValueError(values[j], ids).None?
    ensures FileValuesFold(keyPath, values, ids).failure.None?
    decreases |values|
  {
    if values != [] {
      var front := values[..|values| - 1];
      var last := values[|values| - 1];
      assert forall j :: 0 <= j < |front| ==> front[j] == values[j];
      FileFoldSucceeds(keyPath, front, ids);
      var prior := FileValuesFold(keyPath, front, ids);
      var step := FileValueStep(keyPath, prior.stage, last, ids);
      assert FileValuesFold(keyPath, values, ids) == Advance(prior, step);
      FileValueStepRejects(keyPath, prior.stage, last, ids, FormatError);
    }
  }

  lemma {:induction false} FileFoldFails(keyPath: string, values: seq<Value>, ids: seq<string>, j: nat)
    requires j < |values| && FileValueError(values[j], ids).Some?
    ensures FileValuesFold(keyPath, values, ids).failure.Some?
    decreases |values|
  {
    var front := values[..|values| - 1];
    var prior := FileValuesFold(keyPath, front, ids);
    if j < |front| {
      assert front[j] == values[j];
      FileFoldFails(keyPath, front, ids, j);
      assert FileValuesFold(keyPath, values, ids) == prior;
    } else if prior.failure.None? {
      var last := values[|values| - 1];
      var step := FileValueStep(keyPath, prior.stage, last, ids);
      assert FileValuesFold(keyPath, values, ids) == Advance(prior, step);
      FileValueStepRejects(keyPath, prior.stage, last, ids, FormatError);
    }
  }

  /** A file key whose values fail fails with the exception of the first value that throws. */
  lemma {:induction false} FileFirstFailure(keyPath: string, values: seq<Value>, ids: seq<string>)
    requires FileValuesFold(keyPath, values, ids).failure.Some?
    ensures exists k :: 0 <= k < |values| && FileValueError(values[k], ids) == FileValuesFold(keyPath, values, ids).failure &&
                        forall j :: 0 <= j < k ==> FileValueError(values[j], ids).None?
    decreases |values|
  {
    var front := values[..|values| - 1];
    var last := values[|values| - 1];
    var prior := FileValuesFold(keyPath, front, ids);
    if prior.failure.Some? {
      FileFirstFailure(keyPath, front, ids);
      var k :| 0 <= k < |front| && FileValueError(front[k], ids) == prior.failure &&
               forall j :: 0 <= j < k ==> FileValueError(front[j], ids).None?;
      assert forall j :: 0 <= j <= k ==> values[j] == front[j];
    } else {
      FileFoldFailure(keyPath, front, ids);
      var step := FileValueStep(keyPath, prior.stage, last, ids);
      assert FileValuesFold(keyPath, values, ids) == Advance(prior, step);
      FileValueStepRejects(keyPath, prior.stage, last, ids, step.failure);
      assert forall j :: 0 <= j < |front| ==> values[j] == front[j];
      assert FileValueError(values[|values| - 1], ids) == FileValuesFold(keyPath, values, ids).failure;
    }
  }

  /**
   * In a file key that decodes, every value name is hexadecimal, and every
   * value whose code is a case label decodes.
   */
  lemma FileFoldDecodes(keyPath: string, values: seq<Value>, ids: seq<string>, j: nat)
    requires FileValuesFold(keyPath, values, ids).failure.None?
    requires j < |values|
    ensures ParseHex32(values[j].name).Success?
    ensures FileFieldOf(ParseHex32(values[j].name).value).Some? ==>
              DecodeForFileField(FileFieldOf(ParseHex32(values[j].name).value).value, values[j]).Success?
  {
    FileFoldFailure(keyPath, values, ids);
    assert FileValueError(values[j], ids).None?;
  }

  /** A ProgramID value: its name reads as code 0x100. */
  predicate IsProgramIdValue(v: Value) {
    ParseHex32(v.name) == Success(0x100)
  }

  /** The text of the last value whose name reads as `code`, or "" when there is none. */
  function LastText(values: seq<Value>, code: int): string
    decreases |values|
  {
    if values == [] then ""
    else if ParseHex32(values[|values| - 1].name) == Success(code) then values[|values| - 1].data
    else LastText(values[..|values| - 1], code)
  }

  /** The warnings a file key's values produce: one per code the switch does not know. */
  function UnknownFileWarnings(keyPath: string, values: seq<Value>): seq<LogEntry>
    decreases |values|
  {
    if values == [] then []
    else
      var last := values[|values| - 1];
      UnknownFileWarnings(keyPath, values[..|values| - 1]) +
      (if ParseHex32(last.name).Success? && FileFieldOf(ParseHex32(last.name).value).None?
       then [UnknownFileValue(keyPath, ParseHex32(last.name).value)] else [])
  }

  /** One value: a warning exactly for a hexadecimal name that is no case label. */
  lemma FileValueStepWarning(keyPath: string, st: FileStage, v: Value, ids: seq<string>)
    ensures var step := FileValueStep(keyPath, st, v, ids);
            step.Unrecognised? <==> ParseHex32(v.name).Success? && FileFieldOf(ParseHex32(v.name).value).None?
    ensures var step := FileValueStep(keyPath, st, v, ids);
            step.Unrecognised? ==> step.warning == UnknownFileValue(keyPath, ParseHex32(v.name).value)
  {
  }

  /**
   * One value: a value that is stored changes the ProgramID field only when
   * it is a ProgramID value, and sets the link flag only when its ID belongs
   * to exactly one Programs entry; a ProgramID value, whose data is stored
   * as text, throws exactly when two Programs entries share its ID.
   */
  lemma FileValueStepLink(keyPath: string, st: FileStage, v: Value, ids: seq<string>)
    ensures var step := FileValueStep(keyPath, st, v, ids);
            step.Stored? ==>
              step.stage.fields.programId == (if IsProgramIdValue(v) then v.data else st.fields.programId) &&
              (step.stage.hasLinkedProgram <==> st.hasLinkedProgram || (IsProgramIdValue(v) && v.data in ids))
    ensures var step := FileValueStep(keyPath, st, v, ids);
            IsProgramIdValue(v) ==> (step.Rejected? <==> FindProgram(ids, v.data).Duplicate?)
  {
    var code := ParseHex32(v.name);
    if code.Success? && FileFieldOf(code.value).Some? {
      var field := FileFieldOf(code.value).value;
      CodeTableIsExact(code.value, field);
      var x := DecodeForFileField(field, v);
      if x.Success? {
        SetFileFieldChangesOnlyItsField(st.fields, field, x.value, ProgramId);
      }
    }
  }

  /** Over a whole file key that decodes: one warning per unknown code. */
  lemma {:induction false} FileWarnings(keyPath: string, values: seq<Value>, ids: seq<string>)
    requires FileValuesFold(keyPath, values, ids).failure.None?
    ensures FileValuesFold(keyPath, values, ids).warnings == UnknownFileWarnings(keyPath, values)
    decreases |values|
  {
    if values != [] {
      var front := values[..|values| - 1];
      FileWarnings(keyPath, front, ids);
      FileValueStepWarning(keyPath, FileValuesFold(keyPath, front, ids).stage, values[|values| - 1], ids);
    }
  }

  /**
   * One stored value and a text field: the field takes the value's text when
   * the value's name reads as the field's code, and is unchanged otherwise.
   */
  lemma FileValueStepText(keyPath: string, st: FileStage, v: Value, ids: seq<string>, field: FileField)
    requires IsTextField(field)
    ensures var step := FileValueStep(keyPath, st, v, ids);
            !step.Rejected? ==>
              FileFieldValue((if step.Stored? then step.stage else st).fields, field) ==
                (if ParseHex32(v.name) == Success(CodeOf(field)) then Text(v.data) else FileFieldValue(st.fields, field))
  {
    CodeTableIsExact(CodeOf(field), field);
    var code := ParseHex32(v.name);
    if code.Success? && FileFieldOf(code.value).Some? {
      var written := FileFieldOf(code.value).value;
      CodeTableIsExact(code.value, written);
      CodeTableIsExact(code.value, field);
      var x := DecodeForFileField(written, v);
      if x.Success? {
        SetFileFieldChangesOnlyItsField(st.fields, written, x.value, field);
        if written == field {
          TextDecodedAsIs(field, v);
        }
      }
    }
  }

  /**
   * Over a whole file key that decodes, every text field (the full path and
   * the ProgramID among them) holds the text of the last value with its code,
   * or "" when there is none.
   */
  lemma {:induction false} FileTextFields(keyPath: string, values: seq<Value>, ids: seq<string>, field: FileField)
    requires IsTextField(field)
    requires FileValuesFold(keyPath, values, ids).failure.None?
    ensures FileFieldValue(FileValuesFold(keyPath, values, ids).stage.fields, field) == Text(LastText(values, CodeOf(field)))
    decreases |values|
  {
    if values != [] {
      var front := values[..|values| - 1];
      FileTextFields(keyPath, front, ids, field);
      var prior := FileValuesFold(keyPath, front, ids);
      var step := FileValueStep(keyPath, prior.stage, values[|values| - 1], ids);
      assert FileValuesFold(keyPath, values, ids) == Advance(prior, step);
      FileValueStepText(keyPath, prior.stage, values[|values| - 1], ids, field);
    }
  }

  /** Some element satisfies `p`, checked from the back as the folds run. */
  predicate AnyOf<T>(s: seq<T>, p: T -> bool)
    decreases |s|
  {
    s != [] && (p(s[|s| - 1]) || AnyOf(s[..|s| - 1], p))
  }

  lemma {:induction false} AnyOfWitness<T>(s: seq<T>, p: T -> bool)
    ensures AnyOf(s, p) <==> exists j :: 0 <= j < |s| && p(s[j])
    decreases |s|
  {
    if s != [] {
      var front := s[..|s| - 1];
      AnyOfWitness(front, p);
      if AnyOf(front, p) {
        var j :| 0 <= j < |front| && p(front[j]);
        assert s[j] == front[j];
      }
      if exists j :: 0 <= j < |s| && p(s[j]) {
        var j :| 0 <= j < |s| && p(s[j]);
        if j < |front| {
          assert front[j] == s[j];
        }
      }
    }
  }

  /** Some value is a ProgramID value naming one of the IDs. */
  predicate NamesKnownProgram(values: seq<Value>, ids: seq<string>)
    decreases |values|
  {
    values != [] &&
    ((IsProgramIdValue(values[|values| - 1]) && values[|values| - 1].data in ids) ||
     NamesKnownProgram(values[..|values| - 1], ids))
  }

  /** NamesKnownProgram holds exactly when some value is a ProgramID value naming one of the IDs. */
  lemma {:induction false} NamesKnownProgramWitness(values: seq<Value>, ids: seq<string>)
    ensures NamesKnownProgram(values, ids) <==>
              exists j :: 0 <= j < |values| && IsProgramIdValue(values[j]) && values[j].data in ids
  {
    var p := (v: Value) => IsProgramIdValue(v) && v.data in ids;
    NamesKnownProgramIsAnyOf(values, ids);
    AnyOfWitness(values, p);
    assert forall j :: 0 <= j < |values| ==> (p(values[j]) <==> IsProgramIdValue(values[j]) && values[j].data in ids);
  }

  lemma {:induction false} NamesKnownProgramIsAnyOf(values: seq<Value>, ids: seq<string>)
    ensures NamesKnownProgram(values, ids) == AnyOf(values, (v: Value) => IsProgramIdValue(v) && v.data in ids)
    decreases |values|
  {
    if values != [] {
      NamesKnownProgramIsAnyOf(values[..|values| - 1], ids);
    }
  }

  /**
   * Over a whole file key that decodes, the record is linked exactly when
   * some ProgramID value names an ID of a Programs entry.
   */
  lemma {:induction false} FileLinked(keyPath: string, values: seq<Value>, ids: seq<string>)
    requires FileValuesFold(keyPath, values, ids).failure.None?
    ensures FileValuesFold(keyPath, values, ids).stage.hasLinkedProgram <==> NamesKnownProgram(values, ids)
    decreases |values|
  {
    if values != [] {
      var front := values[..|values| - 1];
      FileLinked(keyPath, front, ids);
      FileValueStepLink(keyPath, FileValuesFold(keyPath, front, ids).stage, values[|values| - 1], ids);
    }
  }

  /**
   * Over a whole file key that decodes and is linked, the final ProgramID is
   * not one that two Programs entries share: that lookup would have thrown.
   */
  lemma {:induction false} FileLinkedLookup(keyPath: string, values: seq<Value>, ids: seq<string>)
    requires FileValuesFold(keyPath, values, ids).failure.None?
    ensures var stage := FileValuesFold(keyPath, values, ids).stage;
            stage.hasLinkedProgram ==> !FindProgram(ids, stage.fields.programId).Duplicate?
    decreases |values|
  {
    if values != [] {
      var front := values[..|values| - 1];
      FileLinkedLookup(keyPath, front, ids);
      FileValueStepLink(keyPath, FileValuesFold(keyPath, front, ids).stage, values[|values| - 1], ids);
    }
  }

  /**
   * The File entry built from the staged fields once the values are read:
   * the volume key's and the file key's last-write times are required.
   */
  function BuildFileEntry(fields: FileFields, volume: Key, file: Key): (r: Result<FileEntry, Failure>)
    ensures r.Success? <==> volume.lastWrite.Some? && file.lastWrite.Some?
    ensures r.Failure? ==> r.error == MissingValue
    ensures r.Success? ==>
              r.value.fields == fields && r.value.ProgramID() == fields.programId &&
              r.value.volumeKeyName == volume.name && r.value.fileKeyName == file.name &&
              r.value.volumeLastWrite == volume.lastWrite.value && r.value.fileLastWrite == file.lastWrite.value &&
              r.value.programName == ""
  {
    if volume.lastWrite.None? || file.lastWrite.None? then Failure(MissingValue)
    else Success(FileEntry(fields, volume.name, volume.lastWrite.value, file.name, file.lastWrite.value, ""))
  }

  /** The inner `foreach` over a file key's values, stopping at the first exception. */
  method DecodeFileValues(file: Key, ids: seq<string>) returns (scan: Scan<FileStage>)
    ensures scan == FileValuesFold(file.path, file.values, ids)
  {
    scan := Scan(InitialFileStage, [], None);
    var i := 0;
    while i < |file.values|
      invariant 0 <= i <= |file.values|
      invariant scan == FileValuesFold(file.path, file.values[..i], ids) && scan.failure.None?
    {
      FileValuesFoldNext(file.path, file.values, ids, i);
      var step := FileValueStep(file.path, scan.stage, file.values[i], ids);
      scan := Advance(scan, step);
      if step.Rejected? {
        FileFailureIsFinal(file.path, file.values, ids, i + 1);
        return;
      }
      i := i + 1;
    }
    assert file.values[..i] == file.values;
  }
}
