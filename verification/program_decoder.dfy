/**
 * Decoding one key under `Root\Programs` into a Programs entry: every value
 * is dispatched on its name, a string token, and stored in one staging
 * field; then the staged fields become the entry. A value that throws ends
 * the record, which is then dropped with three error lines.
 */
module ProgramDecoder {
  import opened Wrappers
  import opened Registry
  import opened Logging
  import opened Numbers
  import opened Time
  import opened Entries
  import opened Staging

  /** Value "a": a failed parse or an unrepresentable instant is swallowed and the field kept. */
  function InstallEpochA(current: Option<int>, data: string): Option<int> {
    match ParseInt64(data)
    case Failure(_) => current
    case Success(seconds) =>
      if seconds > 0 && FromUnixTimeSeconds(seconds).Some? then FromUnixTimeSeconds(seconds) else current
  }

  /** The staging fields, one per case of the switch on the value name. */
  datatype ProgramField =
    | ProgramName0 | ProgramVersion1 | VendorName2 | LocaleId3 | Dword5 | InstallSource6
    | UninstallKey7 | EpochA | EpochB | PathListD | GuidF | Guid10 | UninstallGuid11 | Guid12
    | Dword13 | Dword14 | Dword15 | UnknownBytes16 | Qword17 | Dword18 | RawFiles

  /**
   * The case labels of the switch on the value name, each with the field its
   * case writes: "13", "14" and "15" all write Dword13, so no token reaches
   * Dword14 or Dword15.
   */
  function ProgramFieldOf(token: string): (field: Option<ProgramField>)
    ensures field != Some(Dword14) && field != Some(Dword15)
  {
    if token == "0" then Some(ProgramName0)
    else if token == "1" then Some(ProgramVersion1)
    else if token == "2" then Some(VendorName2)
    else if token == "3" then Some(LocaleId3)
    else if token == "5" then Some(Dword5)
    else if token == "6" then Some(InstallSource6)
    else if token == "7" then Some(UninstallKey7)
    else if token == "a" then Some(EpochA)
    else if token == "b" then Some(EpochB)
    else if token == "d" then Some(PathListD)
    else if token == "f" then Some(GuidF)
    else if token == "10" then Some(Guid10)
    else if token == "11" then Some(UninstallGuid11)
    else if token == "12" then Some(Guid12)
    else if token == "13" || token == "14" || token == "15" then Some(Dword13)
    else if token == "16" then Some(UnknownBytes16)
    else if token == "17" then Some(Qword17)
    else if token == "18" then Some(Dword18)
    else if token == "Files" then Some(RawFiles)
    else None
  }

  /** The first case label of the field; Dword14 and Dword15 have none. */
  function TokenOf(field: ProgramField): Option<string> {
    match field
    case ProgramName0 => Some("0")
    case ProgramVersion1 => Some("1")
    case VendorName2 => Some("2")
    case LocaleId3 => Some("3")
    case Dword5 => Some("5")
    case InstallSource6 => Some("6")
    case UninstallKey7 => Some("7")
    case EpochA => Some("a")
    case EpochB => Some("b")
    case PathListD => Some("d")
    case GuidF => Some("f")
    case Guid10 => Some("10")
    case UninstallGuid11 => Some("11")
    case Guid12 => Some("12")
    case Dword13 => Some("13")
    case Dword14 => None
    case Dword15 => None
    case UnknownBytes16 => Some("16")
    case Qword17 => Some("17")
    case Dword18 => Some("18")
    case RawFiles => Some("Files")
  }

  /** Every field but Dword14 and Dword15 has a case label that leads to it. */
  lemma EveryFieldHasALabel(field: ProgramField)
    ensures TokenOf(field).None? <==> field == Dword14 || field == Dword15
    ensures TokenOf(field).Some? ==> ProgramFieldOf(TokenOf(field).value) == Some(field)
  {
    if field in {ProgramName0, ProgramVersion1, VendorName2, LocaleId3, Dword5, InstallSource6, UninstallKey7, EpochA, EpochB, PathListD} {
      EarlyLabelsLeadBack(field);
    } else if field in {GuidF, Guid10, UninstallGuid11, Guid12, Dword13, UnknownBytes16, Qword17, Dword18, RawFiles} {
      LateLabelsLeadBack(field);
    }
  }

  lemma EarlyLabelsLeadBack(field: ProgramField)
    requires field in {ProgramName0, ProgramVersion1, VendorName2, LocaleId3, Dword5, InstallSource6, UninstallKey7, EpochA, EpochB, PathListD}
    ensures TokenOf(field).Some? && ProgramFieldOf(TokenOf(field).value) == Some(field)
  {
  }

  lemma LateLabelsLeadBack(field: ProgramField)
    requires field in {GuidF, Guid10, UninstallGuid11, Guid12, Dword13, UnknownBytes16, Qword17, Dword18, RawFiles}
    ensures TokenOf(field).Some? && ProgramFieldOf(TokenOf(field).value) == Some(field)
  {
  }

  /** Every case label whose case writes the field. */
  function Labels(field: ProgramField): set<string> {
    match field
    case Dword13 => {"13", "14", "15"}
    case Dword14 | Dword15 => {}
    case _ => {TokenOf(field).value}
  }

  /** The token table read both ways: a name selects a field exactly when it is one of that field's labels. */
  lemma LabelTable(token: string, field: ProgramField)
    ensures ProgramFieldOf(token) == Some(field) <==> token in Labels(field)
  {
    SelectedByItsLabel(token);
    if token in Labels(field) {
      if field == Dword13 {
      } else if field in {ProgramName0, ProgramVersion1, VendorName2, LocaleId3, Dword5, InstallSource6, UninstallKey7, EpochA, EpochB, PathListD} {
        EarlyLabelsLeadBack(field);
      } else {
        LateLabelsLeadBack(field);
      }
    }
  }

  /** A name the table knows is one of the labels of the field it selects. */
  lemma SelectedByItsLabel(token: string)
    ensures ProgramFieldOf(token).Some? ==> token in Labels(ProgramFieldOf(token).value)
  {
  }

  /** The kind of value each field holds. */
  predicate Fits(field: ProgramField, x: FieldValue) {
    match field
    case Dword5 | Dword13 | Dword14 | Dword15 | Qword17 | Dword18 => x.Number?
    case EpochA | EpochB => x.Optional?
    case UnknownBytes16 => x.Bytes?
    case _ => x.Text?
  }

  /**
   * How a case decodes the value for its field: text as it is, integers by
   * `int.Parse` or `long.Parse`, the bytes for "16", and the two install
   * times from seconds, where a time of zero or less leaves the field as it was.
   */
  function DecodeForField(f: ProgramFields, field: ProgramField, v: Value): (r: Result<FieldValue, Failure>)
    ensures r.Success? ==> Fits(field, r.value)
  {
    match field
    case Dword5 | Dword13 | Dword14 | Dword15 | Dword18 => AsNumber(ParseInt32(v.data))
    case Qword17 => AsNumber(ParseInt64(v.data))
    case EpochA => Success(Optional(InstallEpochA(f.epochA, v.data)))
    case EpochB =>
      (match ParseInt64(v.data)
       case Failure(e) => Failure(e)
       case Success(seconds) =>
         if seconds <= 0 then Success(Optional(f.epochB))
         else if FromUnixTimeSeconds(seconds).None? then Failure(TimeOutOfRange)
         else Success(Optional(FromUnixTimeSeconds(seconds))))
    case UnknownBytes16 => Success(Bytes(v.raw))
    case _ => Success(Text(v.data))
  }

  /** The assignment to a staging local. */
  function SetProgramField(f: ProgramFields, field: ProgramField, x: FieldValue): ProgramFields
    requires Fits(field, x)
  {
    match field
    case ProgramName0 => f.(programName0 := x.text)
    case ProgramVersion1 => f.(programVersion1 := x.text)
    case VendorName2 => f.(vendorName2 := x.text)
    case LocaleId3 => f.(localeId3 := x.text)
    case Dword5 => f.(dword5 := x.number)
    case InstallSource6 => f.(installSource6 := x.text)
    case UninstallKey7 => f.(uninstallKey7 := x.text)
    case EpochA => f.(epochA := x.optional)
    case EpochB => f.(epochB := x.optional)
    case PathListD => f.(pathListD := x.text)
    case GuidF => f.(guidF := x.text)
    case Guid10 => f.(guid10 := x.text)
    case UninstallGuid11 => f.(uninstallGuid11 := x.text)
    case Guid12 => f.(guid12 := x.text)
    case Dword13 => f.(dword13 := x.number)
    case Dword14 => f.(dword14 := x.number)
    case Dword15 => f.(dword15 := x.number)
    case UnknownBytes16 => f.(unknownBytes16 := x.bytes)
    case Qword17 => f.(qword17 := x.number)
    case Dword18 => f.(dword18 := x.number)
    case RawFiles => f.(rawFiles := x.text)
  }

  /** A case of the switch: decode the value as its field requires and store it there. */
  function StoreProgramField(f: ProgramFields, field: ProgramField, v: Value): Step<ProgramFields> {
    match DecodeForField(f, field, v)
    case Failure(e) => Rejected(e)
    case Success(x) => Stored(SetProgramField(f, field, x))
  }

  /**
   * The effect of one value on the Program staging fields: the switch on the
   * value name, whose default case writes one warning.
   */
  function ProgramValueStep(keyPath: string, f: ProgramFields, v: Value): Step<ProgramFields> {
    match ProgramFieldOf(v.name)
    case None => Unrecognised(UnknownProgramValue(keyPath, v.name))
    case Some(field) => StoreProgramField(f, field, v)
  }

  function ProgramFieldValue(f: ProgramFields, field: ProgramField): FieldValue {
    match field
    case ProgramName0 => Text(f.programName0)
    case ProgramVersion1 => Text(f.programVersion1)
    case VendorName2 => Text(f.vendorName2)
    case LocaleId3 => Text(f.localeId3)
    case Dword5 => Number(f.dword5)
    case InstallSource6 => Text(f.installSource6)
    case UninstallKey7 => Text(f.uninstallKey7)
    case EpochA => Optional(f.epochA)
    case EpochB => Optional(f.epochB)
    case PathListD => Text(f.pathListD)
    case GuidF => Text(f.guidF)
    case Guid10 => Text(f.guid10)
    case UninstallGuid11 => Text(f.uninstallGuid11)
    case Guid12 => Text(f.guid12)
    case Dword13 => Number(f.dword13)
    case Dword14 => Number(f.dword14)
    case Dword15 => Number(f.dword15)
    case UnknownBytes16 => Bytes(f.unknownBytes16)
    case Qword17 => Number(f.qword17)
    case Dword18 => Number(f.dword18)
    case RawFiles => Text(f.rawFiles)
  }

  /** An assignment changes no field but its own, which then holds the value assigned. */
  lemma SetChangesOnlyItsField(f: ProgramFields, field: ProgramField, x: FieldValue, other: ProgramField)
    requires Fits(field, x)
    ensures ProgramFieldValue(SetProgramField(f, field, x), field) == x
    ensures other != field ==> ProgramFieldValue(SetProgramField(f, field, x), other) == ProgramFieldValue(f, other)
  {
    if field in {Dword5, Dword13, Dword14, Dword15, Qword17, Dword18, EpochA, EpochB, UnknownBytes16} {
      SetNonTextField(f, field, x, other);
    } else {
      SetTextField(f, field, x, other);
    }
  }

  lemma SetNonTextField(f: ProgramFields, field: ProgramField, x: FieldValue, other: ProgramField)
    requires field in {Dword5, Dword13, Dword14, Dword15, Qword17, Dword18, EpochA, EpochB, UnknownBytes16}
    requires Fits(field, x)
    ensures ProgramFieldValue(SetProgramField(f, field, x), field) == x
    ensures other != field ==> ProgramFieldValue(SetProgramField(f, field, x), other) == ProgramFieldValue(f, other)
  {
  }

  lemma SetTextField(f: ProgramFields, field: ProgramField, x: FieldValue, other: ProgramField)
    requires field in {ProgramName0, ProgramVersion1, VendorName2, LocaleId3, InstallSource6, UninstallKey7, PathListD, GuidF, Guid10, UninstallGuid11, Guid12, RawFiles}
    requires Fits(field, x)
    ensures ProgramFieldValue(SetProgramField(f, field, x), field) == x
    ensures other != field ==> ProgramFieldValue(SetProgramField(f, field, x), other) == ProgramFieldValue(f, other)
  {
  }

  /** "13", "14" and "15" share one field; "4", "8", "9", "c" and "e" are not case labels. */
  lemma TokenTableQuirks()
    ensures ProgramFieldOf("13") == ProgramFieldOf("14") == ProgramFieldOf("15") == Some(Dword13)
    ensures forall t :: t in ["4", "8", "9", "c", "e"] ==> ProgramFieldOf(t).None?
  {
  }

  /** The fields whose case parses an integer, the only cases that can throw. */
  predicate IsIntegerField(field: ProgramField) {
    field in {Dword5, EpochB, Dword13, Dword14, Dword15, Qword17, Dword18}
  }

  /** Only an integer field can throw, "a" swallows its failures, and text is stored as it is. */
  lemma DecodeFailsOnlyOnIntegers(f: ProgramFields, field: ProgramField, v: Value)
    ensures DecodeForField(f, field, v).Failure? ==> IsIntegerField(field) && field != EpochA
    ensures ProgramFieldValue(f, field).Text? ==> DecodeForField(f, field, v) == Success(Text(v.data))
  {
  }

  /**
   * What the integer, byte and "a" cases store, tied to the value: "5", "13"
   * to "15" and "18" hold what `int.Parse` reads, "17" what `long.Parse`
   * reads, and either throws what the parser throws; "16" holds the raw bytes.
   */
  lemma DecodedProgramValue(f: ProgramFields, field: ProgramField, v: Value)
    ensures field in {Dword5, Dword13, Dword14, Dword15, Dword18} ==>
              StoresParsed(DecodeForField(f, field, v), ParseInt32(v.data), false)
    ensures field == Qword17 ==> StoresParsed(DecodeForField(f, field, v), ParseInt64(v.data), false)
    ensures field == UnknownBytes16 ==> DecodeForField(f, field, v) == Success(Bytes(v.raw))
    ensures field == EpochA ==> DecodeForField(f, field, v) == Success(Optional(InstallEpochA(f.epochA, v.data)))
  {
    if field in {Dword5, Dword13, Dword14, Dword15, Dword18} {
      DwordDecoded(f, field, v);
    } else if field == Qword17 {
      QwordDecoded(f, v);
    }
  }

  lemma DwordDecoded(f: ProgramFields, field: ProgramField, v: Value)
    requires field in {Dword5, Dword13, Dword14, Dword15, Dword18}
    ensures StoresParsed(DecodeForField(f, field, v), ParseInt32(v.data), false)
  {
    var parsed := ParseInt32(v.data);
    assert DecodeForField(f, field, v) == AsNumber(parsed);
  }

  lemma QwordDecoded(f: ProgramFields, v: Value)
    ensures StoresParsed(DecodeForField(f, Qword17, v), ParseInt64(v.data), false)
  {
    var parsed := ParseInt64(v.data);
    assert DecodeForField(f, Qword17, v) == AsNumber(parsed);
  }

  /** Value "a" is set only from a positive, representable number of seconds, and always is from one. */
  lemma EpochARule(current: Option<int>, data: string)
    ensures InstallEpochA(current, data) != current ==>
              ParseInt64(data).Success? && ParseInt64(data).value > 0 &&
              InstallEpochA(current, data) == FromUnixTimeSeconds(ParseInt64(data).value)
    ensures ParseInt64(data).Success? && ParseInt64(data).value > 0 &&
            FromUnixTimeSeconds(ParseInt64(data).value).Some? ==>
              InstallEpochA(current, data) == FromUnixTimeSeconds(ParseInt64(data).value)
    ensures ParseInt64(data).Failure? ==> InstallEpochA(current, data) == current
    ensures ParseInt64(data).Success? && ParseInt64(data).value <= 0 ==> InstallEpochA(current, data) == current
    ensures ParseInt64(data).Success? && FromUnixTimeSeconds(ParseInt64(data).value).None? ==>
              InstallEpochA(current, data) == current
  {
  }

  /**
   * Value "b": a bad number throws the parser's exception, an unrepresentable
   * positive time throws out of range, zero or less leaves the field, and any
   * other time is stored.
   */
  lemma EpochBRule(f: ProgramFields, v: Value)
    ensures DecodeForField(f, EpochB, v).Failure? <==>
              ParseInt64(v.data).Failure? ||
              (ParseInt64(v.data).value > 0 && FromUnixTimeSeconds(ParseInt64(v.data).value).None?)
    ensures ParseInt64(v.data).Failure? ==> DecodeForField(f, EpochB, v) == Failure(ParseInt64(v.data).error)
    ensures ParseInt64(v.data).Success? && ParseInt64(v.data).value > 0 &&
            FromUnixTimeSeconds(ParseInt64(v.data).value).None? ==>
              DecodeForField(f, EpochB, v) == Failure(TimeOutOfRange)
    ensures ParseInt64(v.data).Success? && ParseInt64(v.data).value <= 0 ==>
              DecodeForField(f, EpochB, v) == Success(Optional(f.epochB))
    ensures ParseInt64(v.data).Success? && ParseInt64(v.data).value > 0 &&
            FromUnixTimeSeconds(ParseInt64(v.data).value).Some? ==>
              DecodeForField(f, EpochB, v) == Success(Optional(FromUnixTimeSeconds(ParseInt64(v.data).value)))
  {
  }

  /** The exception a parse result stands for, if any. */
  function Thrown(r: Result<int, Failure>): Option<Failure> {
    if r.Failure? then Some(r.error) else None
  }

  /**
   * The exception a field's case throws for some data, whatever was stored
   * before: the parser's exception for the integer cases, out of range for an
   * unrepresentable positive "b", and none for every other case.
   */
  function FieldError(field: ProgramField, data: string): Option<Failure> {
    match field
    case Dword5 | Dword13 | Dword14 | Dword15 | Dword18 => Thrown(ParseInt32(data))
    case Qword17 => Thrown(ParseInt64(data))
    case EpochB =>
      (match ParseInt64(data)
       case Failure(e) => Some(e)
       case Success(seconds) =>
         if seconds > 0 && FromUnixTimeSeconds(seconds).None? then Some(TimeOutOfRange) else None)
    case _ => None
  }

  /** The exception a value throws: none for a name the switch does not know. */
  function ProgramValueError(v: Value): Option<Failure> {
    match ProgramFieldOf(v.name)
    case None => None
    case Some(field) => FieldError(field, v.data)
  }

  /** A case throws exactly the exception FieldError names, whatever the staged fields. */
  lemma DecodeError(f: ProgramFields, field: ProgramField, v: Value)
    ensures FieldError(field, v.data) ==
            if DecodeForField(f, field, v).Failure? then Some(DecodeForField(f, field, v).error) else None
  {
    if field in {Dword5, Dword13, Dword14, Dword15, Dword18} {
      DwordDecoded(f, field, v);
      var parsed := ParseInt32(v.data);
      assert FieldError(field, v.data) == Thrown(parsed);
    } else if field == Qword17 {
      QwordDecoded(f, v);
      var parsed := ParseInt64(v.data);
      assert FieldError(field, v.data) == Thrown(parsed);
    } else if field == EpochB {
      EpochBRule(f, v);
    } else {
      DecodeFailsOnlyOnIntegers(f, field, v);
    }
  }

  /**
   * One value throws exactly when its name selects a case and that case's
   * decoding fails, with the decoder's exception; that is the exception
   * ProgramValueError names.
   */
  lemma ProgramValueStepRejects(keyPath: string, f: ProgramFields, v: Value, e: Failure)
    ensures ProgramValueStep(keyPath, f, v) == Rejected(e) <==>
              ProgramFieldOf(v.name).Some? && DecodeForField(f, ProgramFieldOf(v.name).value, v) == Failure(e)
    ensures ProgramValueStep(keyPath, f, v) == Rejected(e) <==> ProgramValueError(v) == Some(e)
    ensures ProgramValueStep(keyPath, f, v).Rejected? <==> ProgramValueError(v).Some?
  {
    if ProgramFieldOf(v.name).Some? {
      DecodeError(f, ProgramFieldOf(v.name).value, v);
    }
  }

  /** The staging state after the values of a key, in order; the first exception ends it. */
  function ProgramValuesFold(keyPath: string, values: seq<Value>): Scan<ProgramFields>
    decreases |values|
  {
    if values == [] then Scan(InitialProgramFields, [], None)
    else
      var prior := ProgramValuesFold(keyPath, values[..|values| - 1]);
      if prior.failure.Some? then prior
      else Advance(prior, ProgramValueStep(keyPath, prior.stage, values[|values| - 1]))
  }

  /** One more value: the fold over the first i + 1 values advances the fold over the first i. */
  lemma ProgramValuesFoldNext(keyPath: string, values: seq<Value>, i: nat)
    requires i < |values| && ProgramValuesFold(keyPath, values[..i]).failure.None?
    ensures ProgramValuesFold(keyPath, values[..i + 1]) ==
            Advance(ProgramValuesFold(keyPath, values[..i]),
                    ProgramValueStep(keyPath, ProgramValuesFold(keyPath, values[..i]).stage, values[i]))
  {
    assert values[..i + 1][..i] == values[..i];
  }

  lemma {:induction false} ProgramFailureIsFinal(keyPath: string, values: seq<Value>, k: nat)
    requires k <= |values|
    requires ProgramValuesFold(keyPath, values[..k]).failure.Some?
    ensures ProgramValuesFold(keyPath, values) == ProgramValuesFold(keyPath, values[..k])
    decreases |values|
  {
    if k < |values| {
      var front := values[..|values| - 1];
      assert front[..k] == values[..k];
      ProgramFailureIsFinal(keyPath, front, k);
    } else {
      assert values[..k] == values;
    }
  }

  /** The warnings a key's values produce: one per value whose name the table does not know. */
  function UnknownProgramWarnings(keyPath: string, values: seq<Value>): seq<LogEntry>
    decreases |values|
  {
    if values == [] then []
    else
      var last := values[|values| - 1];
      UnknownProgramWarnings(keyPath, values[..|values| - 1]) +
      (if ProgramFieldOf(last.name).None? then [UnknownProgramValue(keyPath, last.name)] else [])
  }

  /**
   * Over a whole key: "14" and "15" never reach Dword14 and Dword15, so those
   * stay 0; a record that decodes has written exactly one warning per unknown
   * value name; and a record only fails on a value whose token names an
   * integer field.
   */
  lemma {:induction false} ProgramFoldProperties(keyPath: string, values: seq<Value>)
    ensures ProgramValuesFold(keyPath, values).stage.dword14 == 0
    ensures ProgramValuesFold(keyPath, values).stage.dword15 == 0
    ensures ProgramValuesFold(keyPath, values).failure.None? ==>
              ProgramValuesFold(keyPath, values).warnings == UnknownProgramWarnings(keyPath, values)
    ensures ProgramValuesFold(keyPath, values).failure.Some? ==>
              exists j :: 0 <= j < |values| && ProgramFieldOf(values[j].name).Some? &&
                          IsIntegerField(ProgramFieldOf(values[j].name).value)
    decreases |values|
  {
    if values != [] {
      var front := values[..|values| - 1];
      var last := values[|values| - 1];
      ProgramFoldProperties(keyPath, front);
      var prior := ProgramValuesFold(keyPath, front);
      if prior.failure.Some? {
        var j :| 0 <= j < |front| && ProgramFieldOf(front[j].name).Some? &&
                 IsIntegerField(ProgramFieldOf(front[j].name).value);
        assert values[j] == front[j];
      } else if ProgramFieldOf(last.name).Some? {
        var field := ProgramFieldOf(last.name).value;
        var decoded := DecodeForField(prior.stage, field, last);
        DecodeFailsOnlyOnIntegers(prior.stage, field, last);
        if decoded.Success? {
          SetChangesOnlyItsField(prior.stage, field, decoded.value, Dword14);
          SetChangesOnlyItsField(prior.stage, field, decoded.value, Dword15);
        } else {
          assert values[|values| - 1] == last;
        }
      }
    }
  }

  /** A key's values fail exactly when one of them throws. */
  lemma ProgramFoldFailure(keyPath: string, values: seq<Value>)
    ensures ProgramValuesFold(keyPath, values).failure.None? <==>
              forall j :: 0 <= j < |values| ==> ProgramValueError(values[j]).None?
  {
    if forall j :: 0 <= j < |values| ==> ProgramValueError(values[j]).None? {
      ProgramFoldSucceeds(keyPath, values);
    } else {
      var j :| 0 <= j < |values| && ProgramValueError(values[j]).Some?;
      ProgramFoldFails(keyPath, values, j);
    }
  }

  lemma {:induction false} ProgramFoldSucceeds(keyPath: string, values: seq<Value>)
    requires forall j :: 0 <= j < |values| ==> ProgramValueError(values[j]).None?
    ensures ProgramValuesFold(keyPath, values).failure.None?
    decreases |values|
  {
    if values != [] {
      var front := values[..|values| - 1];
      var last := values[|values| - 1];
      assert forall j :: 0 <= j < |front| ==> front[j] == values[j];
      ProgramFoldSucceeds(keyPath, front);
      var prior := ProgramValuesFold(keyPath, front);
      var step := ProgramValueStep(keyPath, prior.stage, last);
      assert ProgramValuesFold(keyPath, values) == Advance(prior, step);
      ProgramValueStepRejects(keyPath, prior.stage, last, FormatError);
    }
  }

  lemma {:induction false} ProgramFoldFails(keyPath: string, values: seq<Value>, j: nat)
    requires j < |values| && ProgramValueError(values[j]).Some?
    ensures ProgramValuesFold(keyPath, values).failure.Some?
    decreases |values|
  {
    var front := values[..|values| - 1];
    var prior := ProgramValuesFold(keyPath, front);
    if j < |front| {
      assert front[j] == values[j];
      ProgramFoldFails(keyPath, front, j);
      assert ProgramValuesFold(keyPath, values) == prior;
    } else if prior.failure.None? {
      var last := values[|values| - 1];
      var step := ProgramValueStep(keyPath, prior.stage, last);
      assert ProgramValuesFold(keyPath, values) == Advance(prior, step);
      ProgramValueStepRejects(keyPath, prior.stage, last, FormatError);
    }
  }

  /** A key whose values fail fails with the exception of the first value that throws. */
  lemma {:induction false} ProgramFirstFailure(keyPath: string, values: seq<Value>)
    requires ProgramValuesFold(keyPath, values).failure.Some?
    ensures exists k :: 0 <= k < |values| && ProgramValueError(values[k]) == ProgramValuesFold(keyPath, values).failure &&
                        forall j :: 0 <= j < k ==> ProgramValueError(values[j]).None?
    decreases |values|
  {
    var front := values[..|values| - 1];
    var last := values[|values| - 1];
    var prior := ProgramValuesFold(keyPath, front);
    if prior.failure.Some? {
      ProgramFirstFailure(keyPath, front);
      var k :| 0 <= k < |front| && ProgramValueError(front[k]) == prior.failure &&
               forall j :: 0 <= j < k ==> ProgramValueError(front[j]).None?;
      assert forall j :: 0 <= j <= k ==> values[j] == front[j];
    } else {
      ProgramFoldFailure(keyPath, front);
      var step := ProgramValueStep(keyPath, prior.stage, last);
      assert ProgramValuesFold(keyPath, values) == Advance(prior, step);
      ProgramValueStepRejects(keyPath, prior.stage, last, step.failure);
      assert forall j :: 0 <= j < |front| ==> values[j] == front[j];
      assert ProgramValueError(values[|values| - 1]) == ProgramValuesFold(keyPath, values).failure;
    }
  }

  datatype ProgramOutcome = ProgramOutcome(entry: Option<ProgramEntry>, log: seq<LogEntry>)

  /**
   * One Programs key: decoded into an entry with no File entries yet, or
   * dropped, with three error lines, when a value throws or the key has no
   * last-write time.
   */
  function BuildProgram(key: Key): (o: ProgramOutcome)
    ensures o.entry.Some? <==> ProgramValuesFold(key.path, key.values).failure.None? && key.lastWrite.Some?
    ensures o.entry.Some? ==>
              o.entry.value.ProgramID() == key.name && o.entry.value.fileEntries == [] &&
              o.entry.value.fields == ProgramValuesFold(key.path, key.values).stage &&
              o.log == ProgramValuesFold(key.path, key.values).warnings
    ensures o.entry.Some? ==> o.entry.value.lastWrite == key.lastWrite.value
    ensures o.entry.None? ==>
              |o.log| == |ProgramValuesFold(key.path, key.values).warnings| + 3 &&
              o.log[..|o.log| - 3] == ProgramValuesFold(key.path, key.values).warnings &&
              o.log[|o.log| - 3..] ==
                ErrorLines(ProgramEntryError(key.path,
                                             if ProgramValuesFold(key.path, key.values).failure.Some?
                                             then ProgramValuesFold(key.path, key.values).failure.value
                                             else MissingValue), key.path)
  {
    var scan := ProgramValuesFold(key.path, key.values);
    if scan.failure.Some? then
      ProgramOutcome(None, scan.warnings + ErrorLines(ProgramEntryError(key.path, scan.failure.value), key.path))
    else if key.lastWrite.None? then
      ProgramOutcome(None, scan.warnings + ErrorLines(ProgramEntryError(key.path, MissingValue), key.path))
    else
      ProgramOutcome(Some(ProgramEntry(scan.stage, key.name, key.lastWrite.value, [])), scan.warnings)
  }

  /** The body of the Programs loop for one key: the staging locals are filled value by value. */
  method DecodeProgram(key: Key) returns (entry: Option<ProgramEntry>, log: seq<LogEntry>)
    ensures ProgramOutcome(entry, log) == BuildProgram(key)
  {
    var fields := InitialProgramFields;
    log := [];
    var i := 0;
    while i < |key.values|
      invariant 0 <= i <= |key.values|
      invariant ProgramValuesFold(key.path, key.values[..i]) == Scan(fields, log, None)
    {
      ProgramValuesFoldNext(key.path, key.values, i);
      match ProgramValueStep(key.path, fields, key.values[i]) {
        case Stored(next) =>
          fields := next;
        case Unrecognised(warning) =>
          log := log + [warning];
        case Rejected(failure) =>
          ProgramFailureIsFinal(key.path, key.values, i + 1);
          log := log + ErrorLines(ProgramEntryError(key.path, failure), key.path);
          return None, log;
      }
      i := i + 1;
    }
    assert key.values[..i] == key.values;
    if key.lastWrite.None? {
      log := log + ErrorLines(ProgramEntryError(key.path, MissingValue), key.path);
      return None, log;
    }
    entry := Some(ProgramEntry(fields, key.name, key.lastWrite.value, []));
  }
}
