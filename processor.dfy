/**
 * `DataProcessor` (data_processor.py): identifier validation of the two
 * tables, the whole ingestion pipeline from a workbook to the patient,
 * diagnosis and merged tables, the state it commits, and the summary it
 * reports.
 */
module Processor {
  import opened Wrappers
  import opened Text
  import opened Frames
  import opened Cleaning
  import opened Normalizers
  import opened Join

  const PatientSheetMissing: string :=
    "Could not find patient data sheet. Expected sheet name containing 'patient' or 'patient_details'"
  const DiagnosisSheetMissing: string :=
    "Could not find diagnosis data sheet. Expected sheet name containing 'diagnosis' or 'diagnosis_details'"
  const PatientIdMissing: string := "Patient data must contain 'REGISTRY ID' column"
  const DiagnosisIdMissing: string := "Diagnosis data must contain 'REGISTRY ID' column"
  const ProcessErrorPrefix: string := "Error processing Excel file: "

  // ---------------------------------------------------------------------
  // The identifier column is no role column

  /** `REGISTRY ID` is upper-case already and shares no keyword with the role columns. */
  lemma RegistryIdIsNoRoleName()
    ensures RegistryId != AgeName && !EndsInAge(RegistryId) && !MentionsAge(RegistryId)
    ensures !IsGenderName(RegistryId) && !IsDateName(RegistryId) && !IsDiagnosisName(RegistryId)
  {
    RegistryIdIsUpper();
    RegistryIdIsNoAgeName();
    NotContainsMissingChar(RegistryId, "GENDER", 2);
    NotContainsMissingChar(RegistryId, "SEX", 2);
    NotContainsMissingChar(RegistryId, "DIAGNOSIS", 2);
    NotContainsMissingChar(RegistryId, "CONDITION", 0);
    RegistryIdIsNoDateName();
  }

  lemma RegistryIdIsUpper()
    ensures Upper(RegistryId) == RegistryId
  {
  }

  lemma RegistryIdIsNoAgeName()
    ensures !EndsWith(RegistryId, " AGE") && !Contains(RegistryId, AgeName)
  {
    NotContainsMissingChar(RegistryId, AgeName, 0);
    assert RegistryId[|RegistryId| - 4..][0] == 'Y';
  }

  lemma RegistryIdIsNoDateName()
    ensures !ContainsAny(RegistryId, DateKeywords)
  {
    NotContainsMissingChar(RegistryId, "DATE", 1);
    NotContainsMissingChar(RegistryId, "TIME", 2);
    NotContainsMissingChar(RegistryId, "CREATED", 0);
    NotContainsMissingChar(RegistryId, "UPDATED", 0);
    NotContainsMissingChar(RegistryId, "ADMISSION", 0);
    NotContainsMissingChar(RegistryId, "DISCHARGE", 3);
  }

  /** `r` carries the identifier column of `t`: at the same position, with the same cells. */
  predicate KeepsIds(t: Table, r: Table)
    requires WellFormed(t) && WellFormed(r) && RegistryId in t.names
  {
    RegistryId in r.names && IndexOf(r.names, RegistryId) == IndexOf(t.names, RegistryId)
    && KeyColumn(r) == KeyColumn(t)
  }

  /** Renaming column `p` of a table, whose name is not `REGISTRY ID`, and replacing its cells keeps the identifier column. */
  lemma RewriteKeepsIds(t: Table, r: Table, p: nat, to: string)
    requires WellFormed(t) && WellFormed(r) && RegistryId in t.names
    requires p < |t.cols| && t.names[p] != RegistryId && to != RegistryId
    requires r.names == t.names || r.names == RenameAll(t.names, t.names[p], to)
    requires |r.cols| == |t.cols| && forall j :: 0 <= j < |t.cols| && j != p ==> r.cols[j] == t.cols[j]
    ensures KeepsIds(t, r)
  {
    if r.names != t.names {
      RenameAllKeepsIndex(t.names, t.names[p], to, RegistryId);
    }
  }

  lemma AgeStepKeepsIds(t: Table, env: Env)
    requires WellFormed(t) && RegistryId in t.names
    ensures KeepsIds(t, AgeStep(t, env))
  {
    RegistryIdIsNoRoleName();
    match AgeColumn(t.names)
    case None =>
    case Some(p) =>
      if AgeName !in t.names {
        assert EndsInAge(t.names[p]) || MentionsAge(t.names[p]);
      }
      RewriteKeepsIds(t, AgeStep(t, env), p, AgeName);
  }

  lemma GenderStepKeepsIds(t: Table, env: Env)
    requires WellFormed(t) && RegistryId in t.names
    ensures KeepsIds(t, GenderStep(t, env))
  {
    RegistryIdIsNoRoleName();
    match FirstWhere(t.names, IsGenderName)
    case None =>
    case Some(p) =>
      RewriteKeepsIds(t, GenderStep(t, env), p, GenderName);
  }

  lemma DateStepKeepsIds(t: Table, env: Env)
    requires WellFormed(t) && RegistryId in t.names
    ensures KeepsIds(t, DateStep(t, env))
  {
    RegistryIdIsNoRoleName();
  }

  lemma DiagnosisStepKeepsIds(t: Table, env: Env)
    requires WellFormed(t) && RegistryId in t.names
    ensures KeepsIds(t, DiagnosisStep(t, env))
  {
    RegistryIdIsNoRoleName();
  }

  // ---------------------------------------------------------------------
  // Identifier validation

  /** `df.dropna(subset=['REGISTRY ID'])` */
  function DropNullIds(t: Table): (r: Table)
    requires WellFormed(t) && RegistryId in t.names
    ensures WellFormed(r) && r.names == t.names
  {
    SelectRows(t, IndicesWhere(NonNullFlags(KeyColumn(t))))
  }

  /** `col.astype(str)`: every cell becomes its text, in the form its dtype prints it. */
  function IdText(env: Env, col: seq<Cell>): (r: seq<Cell>)
    ensures |r| == |col| && forall i :: 0 <= i < |col| ==> r[i] == Val(Str(AsText(env, col[i])))
  {
    seq(|col|, i requires 0 <= i < |col| => Val(Str(AsText(env, col[i]))))
  }

  /** `df['REGISTRY ID'] = df['REGISTRY ID'].astype(str)` */
  function CastIds(t: Table, env: Env): (r: Table)
    requires WellFormed(t) && RegistryId in t.names
    ensures WellFormed(r) && r.names == t.names && r.height == t.height
  {
    var k := IndexOf(t.names, RegistryId);
    t.(cols := t.cols[k := IdText(env, t.cols[k])])
  }

  /** `_validate_patient_data` on a table value: the age, gender and date steps. */
  function PatientStage(t: Table, env: Env): (r: Result<Table>)
    requires WellFormed(t)
    ensures r.Ok? ==> WellFormed(r.value)
  {
    if RegistryId !in t.names then Err(PatientIdMissing)
    else Ok(DateStep(GenderStep(AgeStep(CastIds(DropNullIds(t), env), env), env), env))
  }

  /** `_validate_diagnosis_data` on a table value: the date and diagnosis steps only. */
  function DiagnosisStage(t: Table, env: Env): (r: Result<Table>)
    requires WellFormed(t)
    ensures r.Ok? ==> WellFormed(r.value)
  {
    if RegistryId !in t.names then Err(DiagnosisIdMissing)
    else Ok(DiagnosisStep(DateStep(CastIds(DropNullIds(t), env), env), env))
  }

  /** `_validate_patient_data(df)`: the new frame is built, then rewritten in place by each step. */
  method ValidatePatientData(t: Table, env: Env) returns (r: Result<Table>)
    requires WellFormed(t)
    ensures r == PatientStage(t, env)
  {
    if RegistryId !in t.names {
      return Err(PatientIdMissing);
    }
    var df := new Frame(DropNullIds(t));
    var k := IndexOf(df.names, RegistryId);
    df.SetColumn(k, IdText(env, df.cols[k]));
    ProcessAgeColumn(df, env);
    ProcessGenderColumn(df, env);
    ProcessDateColumns(df, env);
    return Ok(df.Snapshot());
  }

  /** `_validate_diagnosis_data(df)` */
  method ValidateDiagnosisData(t: Table, env: Env) returns (r: Result<Table>)
    requires WellFormed(t)
    ensures r == DiagnosisStage(t, env)
  {
    if RegistryId !in t.names {
      return Err(DiagnosisIdMissing);
    }
    var df := new Frame(DropNullIds(t));
    var k := IndexOf(df.names, RegistryId);
    df.SetColumn(k, IdText(env, df.cols[k]));
    ProcessDateColumns(df, env);
    ProcessDiagnosisColumns(df, env);
    return Ok(df.Snapshot());
  }

  /**
   * The identifier column after validation: the input rows with a
   * non-null identifier, in order, each identifier turned into its text.
   */
  predicate IdsValidated(t: Table, r: Table, env: Env)
    requires WellFormed(t) && WellFormed(r) && RegistryId in t.names
  {
    var idx := IndicesWhere(NonNullFlags(KeyColumn(t)));
    && RegistryId in r.names
    && r.height == t.height - NullCount(KeyColumn(t)) == |idx|
    && forall i :: 0 <= i < r.height ==>
         KeyColumn(t)[idx[i]].Val? && KeyColumn(r)[i] == Val(Str(AsText(env, KeyColumn(t)[idx[i]])))
  }

  /** Dropping the null identifiers and casting the rest meets `IdsValidated`. */
  lemma CastIdsSpec(t: Table, env: Env)
    requires WellFormed(t) && RegistryId in t.names
    ensures IdsValidated(t, CastIds(DropNullIds(t), env), env)
  {
    var idx := IndicesWhere(NonNullFlags(KeyColumn(t)));
    NonNullPlusNull(KeyColumn(t));
    var d := DropNullIds(t);
    var k := IndexOf(t.names, RegistryId);
    assert KeyColumn(d) == seq(|idx|, i requires 0 <= i < |idx| => KeyColumn(t)[idx[i]]);
  }

  /**
   * Patient validation fails exactly when there is no `REGISTRY ID`
   * column; otherwise it keeps the rows with an identifier, as text.
   */
  lemma PatientStageSpec(t: Table, env: Env)
    requires WellFormed(t)
    ensures PatientStage(t, env).Err? <==> RegistryId !in t.names
    ensures PatientStage(t, env).Err? ==> PatientStage(t, env).msg == PatientIdMissing
    ensures PatientStage(t, env).Ok? ==> IdsValidated(t, PatientStage(t, env).value, env)
  {
    if RegistryId in t.names {
      var c := CastIds(DropNullIds(t), env);
      CastIdsSpec(t, env);
      var a := AgeStep(c, env);
      AgeStepKeepsIds(c, env);
      var g := GenderStep(a, env);
      GenderStepKeepsIds(a, env);
      DateStepKeepsIds(g, env);
    }
  }

  /**
   * Diagnosis validation fails exactly when there is no `REGISTRY ID`
   * column; otherwise it keeps the rows with an identifier, as text, and
   * renames nothing: it never produces an `AGE` or `GENDER` column that
   * was not there.
   */
  lemma DiagnosisStageSpec(t: Table, env: Env)
    requires WellFormed(t)
    ensures DiagnosisStage(t, env).Err? <==> RegistryId !in t.names
    ensures DiagnosisStage(t, env).Err? ==> DiagnosisStage(t, env).msg == DiagnosisIdMissing
    ensures DiagnosisStage(t, env).Ok? ==>
              IdsValidated(t, DiagnosisStage(t, env).value, env) && DiagnosisStage(t, env).value.names == t.names
  {
    if RegistryId in t.names {
      var c := CastIds(DropNullIds(t), env);
      CastIdsSpec(t, env);
      DateStepKeepsIds(c, env);
      DiagnosisStepKeepsIds(DateStep(c, env), env);
    }
  }

  /**
   * `astype(str)` does not make identifiers of different dtypes agree: when
   * every diagnosis identifier is the integer `n` of an `int64` column and
   * every patient identifier is `n` in a `float64` column (an integer
   * column with a blank cell is read so), the texts are "n" and "n.0" and
   * no diagnosis meets a patient.
   */
  lemma IntAndFloatIdsDoNotMeet(env: Env, d: Table, p: Table, n: int)
    requires WellFormed(d) && WellFormed(p) && RegistryId in d.names && RegistryId in p.names
    requires -FloatExponentFrom < n as real < FloatExponentFrom
    requires forall i :: 0 <= i < d.height ==> KeyColumn(d)[i] == Val(Int(n))
    requires forall j :: 0 <= j < p.height ==> KeyColumn(p)[j] == NaN || KeyColumn(p)[j] == Val(Float(n as real))
    ensures DiagnosisStage(d, env).Ok? && RegistryId in DiagnosisStage(d, env).value.names
    ensures PatientStage(p, env).Ok? && RegistryId in PatientStage(p, env).value.names
    ensures MatchedDiagnoses(DiagnosisStage(d, env).value, PatientStage(p, env).value) == 0
  {
    var x, y := Val(Int(n)), Val(Float(n as real));
    DiagnosisIdsAreOne(env, d, x);
    PatientIdsAreOne(env, p, y);
    IntAndFloatTexts(env, n);
    NoCommonId(DiagnosisStage(d, env).value, PatientStage(p, env).value, Val(Str(AsText(env, x))), Val(Str(AsText(env, y))));
  }

  /** Diagnosis validation of a table whose only identifier is `c` leaves the text of `c` in every row. */
  lemma DiagnosisIdsAreOne(env: Env, d: Table, c: Cell)
    requires WellFormed(d) && RegistryId in d.names
    requires forall i :: 0 <= i < d.height && KeyColumn(d)[i].Val? ==> KeyColumn(d)[i] == c
    ensures DiagnosisStage(d, env).Ok? && RegistryId in DiagnosisStage(d, env).value.names
    ensures forall i :: 0 <= i < DiagnosisStage(d, env).value.height ==>
              KeyColumn(DiagnosisStage(d, env).value)[i] == Val(Str(AsText(env, c)))
  {
    DiagnosisStageSpec(d, env);
    ValidatedIdsAreOne(d, DiagnosisStage(d, env).value, env, c);
  }

  /** Patient validation of a table whose only identifier is `c` leaves the text of `c` in every row. */
  lemma PatientIdsAreOne(env: Env, p: Table, c: Cell)
    requires WellFormed(p) && RegistryId in p.names
    requires forall i :: 0 <= i < p.height && KeyColumn(p)[i].Val? ==> KeyColumn(p)[i] == c
    ensures PatientStage(p, env).Ok? && RegistryId in PatientStage(p, env).value.names
    ensures forall i :: 0 <= i < PatientStage(p, env).value.height ==>
              KeyColumn(PatientStage(p, env).value)[i] == Val(Str(AsText(env, c)))
  {
    PatientStageSpec(p, env);
    ValidatedIdsAreOne(p, PatientStage(p, env).value, env, c);
  }

  /** Tables keyed by two different single identifiers have no diagnosis that meets a patient. */
  lemma NoCommonId(d: Table, p: Table, x: Cell, y: Cell)
    requires WellFormed(d) && WellFormed(p) && RegistryId in d.names && RegistryId in p.names
    requires x != y
    requires forall i :: 0 <= i < d.height ==> KeyColumn(d)[i] == x
    requires forall j :: 0 <= j < p.height ==> KeyColumn(p)[j] == y
    ensures MatchedDiagnoses(d, p) == 0
  {
    MatchedDiagnosesSpec(d, p);
  }

  /** When every non-null identifier is `c`, every validated identifier is the text of `c`. */
  lemma ValidatedIdsAreOne(t: Table, r: Table, env: Env, c: Cell)
    requires WellFormed(t) && WellFormed(r) && RegistryId in t.names && IdsValidated(t, r, env)
    requires forall i :: 0 <= i < t.height && KeyColumn(t)[i].Val? ==> KeyColumn(t)[i] == c
    ensures forall i :: 0 <= i < r.height ==> KeyColumn(r)[i] == Val(Str(AsText(env, c)))
  {
  }

  // ---------------------------------------------------------------------
  // The pipeline

  /** One sheet of the workbook as `pd.read_excel` returns it. */
  datatype Sheet = Sheet(name: string, table: Table)

  /** The three tables of a successful run. */
  datatype Outputs = Outputs(patient: Table, diagnosis: Table, merged: Table)

  function SheetNames(wb: seq<Sheet>): (r: seq<string>)
    ensures |r| == |wb| && forall i :: 0 <= i < |wb| ==> r[i] == wb[i].name
  {
    seq(|wb|, i requires 0 <= i < |wb| => wb[i].name)
  }

  predicate WellFormedBook(wb: seq<Sheet>) {
    forall i :: 0 <= i < |wb| ==> WellFormed(wb[i].table)
  }

  /** `pd.read_excel(file, sheet_name=name)` */
  function ReadSheet(wb: seq<Sheet>, name: string): (t: Table)
    requires WellFormedBook(wb) && name in SheetNames(wb)
    ensures WellFormed(t)
    ensures exists i :: 0 <= i < |wb| && wb[i].name == name && wb[i].table == t &&
              forall k :: 0 <= k < i ==> wb[k].name != name
  {
    var i := IndexOf(SheetNames(wb), name);
    assert wb[i].name == name;
    wb[i].table
  }

  /** The validation stages after the sheets are found: clean, validate, merge; the first failure is the result. */
  function Stages(pt: Table, dt: Table, env: Env): (r: Result<Outputs>)
    requires WellFormed(pt) && WellFormed(dt)
  {
    match PatientStage(CleanDataframe(pt), env)
    case Err(m) => Err(m)
    case Ok(p) =>
      match DiagnosisStage(CleanDataframe(dt), env)
      case Err(m) => Err(m)
      case Ok(d) =>
        PatientStageSpec(CleanDataframe(pt), env);
        DiagnosisStageSpec(CleanDataframe(dt), env);
        match MergeData(d, p)
        case Err(m) => Err(m)
        case Ok(merged) => Ok(Outputs(p, d, merged))
  }

  /** Every identifier of the table is non-null text. */
  predicate IdsAreText(t: Table)
    requires WellFormed(t) && RegistryId in t.names
  {
    forall i :: 0 <= i < t.height ==> KeyColumn(t)[i].Val? && KeyColumn(t)[i].value.Str?
  }

  /**
   * The three tables of a successful run: identifiers are non-null text on
   * both sides, and the merged table is their left join, with at least one
   * row and at least one row per diagnosis row.
   */
  predicate GoodOutputs(o: Outputs) {
    && WellFormed(o.patient) && WellFormed(o.diagnosis) && WellFormed(o.merged)
    && RegistryId in o.patient.names && RegistryId in o.diagnosis.names
    && IdsAreText(o.patient) && IdsAreText(o.diagnosis)
    && o.merged == MergeTable(o.diagnosis, o.patient)
    && o.merged.height >= o.diagnosis.height >= 1
  }

  lemma ValidatedIdsAreText(t: Table, r: Table, env: Env)
    requires WellFormed(t) && WellFormed(r) && RegistryId in t.names && IdsValidated(t, r, env)
    ensures IdsAreText(r)
  {
  }

  /** The stages after the sheets are found produce `GoodOutputs` whenever they succeed. */
  lemma StagesOutputs(pt: Table, dt: Table, env: Env)
    requires WellFormed(pt) && WellFormed(dt)
    ensures Stages(pt, dt, env).Ok? ==> GoodOutputs(Stages(pt, dt, env).value)
  {
    var r := Stages(pt, dt, env);
    if r.Ok? {
      var cp, cd := CleanDataframe(pt), CleanDataframe(dt);
      PatientStageSpec(cp, env);
      DiagnosisStageSpec(cd, env);
      var p, d := PatientStage(cp, env).value, DiagnosisStage(cd, env).value;
      ValidatedIdsAreText(cp, p, env);
      ValidatedIdsAreText(cd, d, env);
      assert r.value == Outputs(p, d, MergeData(d, p).value);
    }
  }

  /**
   * The stages of `process_excel_file` after the sheets are found, in the
   * order the source runs them: clean both tables, validate the patient
   * table, then the diagnosis table, then merge.
   */
  method RunStages(pt: Table, dt: Table, env: Env) returns (r: Result<Outputs>)
    requires WellFormed(pt) && WellFormed(dt)
    ensures r == Stages(pt, dt, env)
  {
    var patient := CleanDataframe(pt);
    var diagnosis := CleanDataframe(dt);
    var p := ValidatePatientData(patient, env);
    if p.Err? {
      return Err(p.msg);
    }
    var d := ValidateDiagnosisData(diagnosis, env);
    if d.Err? {
      return Err(d.msg);
    }
    PatientStageSpec(patient, env);
    DiagnosisStageSpec(diagnosis, env);
    var merged := MergeData(d.value, p.value);
    if merged.Err? {
      return Err(merged.msg);
    }
    return Ok(Outputs(p.value, d.value, merged.value));
  }

  /** `except Exception as e: raise Exception(f"Error processing Excel file: {e}")` */
  function Wrap(r: Result<Outputs>): (w: Result<Outputs>)
    ensures w.Err? <==> r.Err?
    ensures w.Err? ==> StartsWith(w.msg, ProcessErrorPrefix) && w.msg[|ProcessErrorPrefix|..] == r.msg
    ensures w.Ok? ==> w == r
  {
    if r.Err? then
      var m := ProcessErrorPrefix + r.msg;
      assert m[..|ProcessErrorPrefix|] == ProcessErrorPrefix;
      Err(m)
    else r
  }

  /**
   * `process_excel_file` as a function of the workbook: the patient sheet
   * is checked first, then the diagnosis sheet; every failure carries the
   * prefix "Error processing Excel file: ".
   */
  function Pipeline(wb: seq<Sheet>, env: Env): (r: Result<Outputs>)
    requires WellFormedBook(wb)
  {
    var names := SheetNames(wb);
    var ps := FirstSheet(names, PatientSheetKeywords);
    var ds := FirstSheet(names, DiagnosisSheetKeywords);
    if ps.None? then Err(ProcessErrorPrefix + PatientSheetMissing)
    else if ds.None? then Err(ProcessErrorPrefix + DiagnosisSheetMissing)
    else Wrap(Stages(ReadSheet(wb, ps.value), ReadSheet(wb, ds.value), env))
  }

  /** With both sheets found, the pipeline is the wrapped result of the stages on them. */
  lemma PipelineWhenFound(wb: seq<Sheet>, env: Env, ps: string, ds: string)
    requires WellFormedBook(wb)
    requires FirstSheet(SheetNames(wb), PatientSheetKeywords) == Some(ps)
    requires FirstSheet(SheetNames(wb), DiagnosisSheetKeywords) == Some(ds)
    ensures ps in SheetNames(wb) && ds in SheetNames(wb)
    ensures Pipeline(wb, env) == Wrap(Stages(ReadSheet(wb, ps), ReadSheet(wb, ds), env))
  {
  }

  /** Every failure of the pipeline carries the prefix "Error processing Excel file: ". */
  lemma PipelineErrorPrefix(wb: seq<Sheet>, env: Env)
    requires WellFormedBook(wb)
    ensures Pipeline(wb, env).Err? ==> StartsWith(Pipeline(wb, env).msg, ProcessErrorPrefix)
  {
    var names := SheetNames(wb);
    var ps := FirstSheet(names, PatientSheetKeywords);
    var ds := FirstSheet(names, DiagnosisSheetKeywords);
    if ps.None? {
      PrefixedMessage(PatientSheetMissing);
    } else if ds.None? {
      PrefixedMessage(DiagnosisSheetMissing);
    }
  }

  lemma PrefixedMessage(detail: string)
    ensures StartsWith(ProcessErrorPrefix + detail, ProcessErrorPrefix)
  {
    assert (ProcessErrorPrefix + detail)[..|ProcessErrorPrefix|] == ProcessErrorPrefix;
  }

  /** A workbook without a patient sheet fails on that, whatever its other sheets. */
  lemma MissingPatientSheetFailsFirst(wb: seq<Sheet>, env: Env)
    requires WellFormedBook(wb)
    requires forall i :: 0 <= i < |wb| ==> !SheetMatches(wb[i].name, PatientSheetKeywords)
    ensures Pipeline(wb, env) == Err(ProcessErrorPrefix + PatientSheetMissing)
  {
    assert FirstSheet(SheetNames(wb), PatientSheetKeywords).None?;
  }

  /** A workbook with a patient sheet but no diagnosis sheet fails on the diagnosis sheet. */
  lemma MissingDiagnosisSheetFails(wb: seq<Sheet>, env: Env, i: nat)
    requires WellFormedBook(wb)
    requires i < |wb| && SheetMatches(wb[i].name, PatientSheetKeywords)
    requires forall j :: 0 <= j < |wb| ==> !SheetMatches(wb[j].name, DiagnosisSheetKeywords)
    ensures Pipeline(wb, env) == Err(ProcessErrorPrefix + DiagnosisSheetMissing)
  {
    var names := SheetNames(wb);
    assert SheetMatches(names[i], PatientSheetKeywords);
    assert FirstSheet(names, PatientSheetKeywords).Some?;
    assert FirstSheet(names, DiagnosisSheetKeywords).None?;
  }

  /**
   * A successful run yields tables whose identifiers are all non-null
   * text; the merged table has a row for every diagnosis row and at least
   * one row, exactly one per diagnosis row when patient identifiers are
   * unique.
   */
  lemma PipelineOutputs(wb: seq<Sheet>, env: Env)
    requires WellFormedBook(wb)
    ensures Pipeline(wb, env).Ok? ==> GoodOutputs(Pipeline(wb, env).value)
    ensures Pipeline(wb, env).Ok? && Distinct(KeyColumn(Pipeline(wb, env).value.patient)) ==>
              Pipeline(wb, env).value.merged.height == Pipeline(wb, env).value.diagnosis.height
  {
    var r := Pipeline(wb, env);
    if r.Ok? {
      var names := SheetNames(wb);
      var ps := FirstSheet(names, PatientSheetKeywords).value;
      var ds := FirstSheet(names, DiagnosisSheetKeywords).value;
      StagesOutputs(ReadSheet(wb, ps), ReadSheet(wb, ds), env);
      if Distinct(KeyColumn(r.value.patient)) {
        MergeRowCountWithUniquePatients(r.value.diagnosis, r.value.patient);
      }
    }
  }

  // ---------------------------------------------------------------------
  // The processor and its state

  /** `get_data_summary()`: empty before a successful run. */
  datatype Summary =
    | NoData
    | Summary(totalPatients: nat, totalDiagnoses: nat, mergedRecords: nat, columns: seq<string>)

  /**
   * `Series.nunique()`: the number of distinct non-null values.  It is the
   * length exactly when the values are distinct and none is null, zero
   * exactly when all are null, and on a column without nulls it is the
   * length less the entries `duplicated()` marks.
   */
  function NUnique(col: seq<Cell>): (n: nat)
    ensures n <= |col|
    ensures n == |col| <==> Distinct(col) && forall i :: 0 <= i < |col| ==> col[i].Val?
    ensures n == 0 <==> forall i :: 0 <= i < |col| ==> !col[i].Val?
    ensures (forall i :: 0 <= i < |col| ==> col[i].Val?) ==> n + DupCount(col) == |col|
  {
    var vals := set c | c in col && c.Val?;
    NUniqueBounds(col, vals);
    |vals|
  }

  lemma NUniqueBounds(col: seq<Cell>, vals: set<Cell>)
    requires vals == set c | c in col && c.Val?
    ensures |vals| <= |col|
    ensures |vals| == |col| <==> Distinct(col) && forall i :: 0 <= i < |col| ==> col[i].Val?
    ensures |vals| == 0 <==> forall i :: 0 <= i < |col| ==> !col[i].Val?
    ensures (forall i :: 0 <= i < |col| ==> col[i].Val?) ==> |vals| + DupCount(col) == |col|
  {
    assert vals <= Elems(col);
    SubsetCard(vals, Elems(col));
    DupCountPlusDistinct(col);
    DupCountZero(col);
    if forall i :: 0 <= i < |col| ==> col[i].Val? {
      assert vals == Elems(col);
    }
    if |vals| == |col| {
      assert vals == Elems(col);
      forall i | 0 <= i < |col| ensures col[i].Val? {
        assert col[i] in Elems(col);
      }
    }
    if exists i :: 0 <= i < |col| && col[i].Val? {
      var i :| 0 <= i < |col| && col[i].Val?;
      assert col[i] in vals;
    }
  }

  /** A subset is no larger than its superset, and strictly smaller when it is a proper one. */
  lemma SubsetCard<T>(a: set<T>, b: set<T>)
    requires a <= b
    ensures |a| <= |b|
    ensures a != b ==> |a| < |b|
  {
    if a != b {
      var x :| x in b && x !in a;
      SubsetCard(a, b - {x});
    }
  }

  /**
   * The body of `process_excel_file` before it stores anything: locate the
   * two sheets, read them, run the stages and prefix any error.
   */
  method ProcessWorkbook(wb: seq<Sheet>, env: Env) returns (r: Result<Outputs>)
    requires WellFormedBook(wb)
    ensures r == Pipeline(wb, env)
  {
    var names := SheetNames(wb);
    var patientSheet := FindSheet(names, PatientSheetKeywords);
    var diagnosisSheet := FindSheet(names, DiagnosisSheetKeywords);
    if patientSheet.None? {
      return Err(ProcessErrorPrefix + PatientSheetMissing);
    }
    if diagnosisSheet.None? {
      return Err(ProcessErrorPrefix + DiagnosisSheetMissing);
    }
    var pt, dt := ReadSheet(wb, patientSheet.value), ReadSheet(wb, diagnosisSheet.value);
    var stages := RunStages(pt, dt, env);
    PipelineWhenFound(wb, env, patientSheet.value, diagnosisSheet.value);
    if stages.Err? {
      return Err(ProcessErrorPrefix + stages.msg);
    }
    return stages;
  }

  class DataProcessor {
    var patientData: Option<Table>
    var diagnosisData: Option<Table>
    var mergedData: Option<Table>

    /** The fields are all unset, or hold the three tables of one successful run. */
    ghost predicate Valid()
      reads this
    {
      (patientData.None? && diagnosisData.None? && mergedData.None?)
      || (patientData.Some? && diagnosisData.Some? && mergedData.Some?
          && GoodOutputs(Outputs(patientData.value, diagnosisData.value, mergedData.value)))
    }

    constructor ()
      ensures Valid()
      ensures patientData.None? && diagnosisData.None? && mergedData.None?
    {
      patientData, diagnosisData, mergedData := None, None, None;
    }

    /**
     * `process_excel_file`: the result of the pipeline; the three fields
     * are set only when every stage succeeded and are untouched otherwise.
     */
    method ProcessExcelFile(wb: seq<Sheet>, env: Env) returns (r: Result<Outputs>)
      requires Valid() && WellFormedBook(wb)
      modifies this
      ensures Valid()
      ensures r == Pipeline(wb, env)
      ensures r.Ok? ==> patientData == Some(r.value.patient) && diagnosisData == Some(r.value.diagnosis)
                        && mergedData == Some(r.value.merged)
      ensures r.Err? ==> patientData == old(patientData) && diagnosisData == old(diagnosisData)
                         && mergedData == old(mergedData)
    {
      r := ProcessWorkbook(wb, env);
      if r.Ok? {
        PipelineOutputs(wb, env);
        Store(r.value);
      }
    }

    /** Records the tables of a successful run. */
    method Store(o: Outputs)
      requires GoodOutputs(o)
      modifies this
      ensures Valid()
      ensures patientData == Some(o.patient) && diagnosisData == Some(o.diagnosis) && mergedData == Some(o.merged)
    {
      patientData, diagnosisData, mergedData := Some(o.patient), Some(o.diagnosis), Some(o.merged);
    }

    /**
     * `get_data_summary`: nothing before a successful run; afterwards the
     * number of distinct patient identifiers, which is the patient rows
     * less the repeated identifiers, the diagnosis rows, the merged rows
     * (never fewer than the diagnosis rows) and the merged column names.
     */
    function GetDataSummary(): (s: Summary)
      requires Valid()
      reads this
      ensures s.NoData? <==> mergedData.None?
      ensures s.Summary? ==>
                && s.totalPatients == NUnique(KeyColumn(patientData.value))
                && s.totalPatients + DupCount(KeyColumn(patientData.value)) == patientData.value.height
                && s.totalDiagnoses == diagnosisData.value.height
                && s.mergedRecords == mergedData.value.height >= s.totalDiagnoses >= 1
                && s.columns == mergedData.value.names
    {
      if mergedData.None? then NoData
      else
        Summary(NUnique(KeyColumn(patientData.value)), diagnosisData.value.height,
                mergedData.value.height, mergedData.value.names)
    }
  }
}
