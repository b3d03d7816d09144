/**
 * The per-role column normalisers of `DataProcessor` (data_processor.py):
 * `_process_age_column`, `_process_gender_column`, `_process_date_columns`
 * and `_process_diagnosis_columns`.  Each rewrites the frame it is given in
 * place; each is a method on a `Frame` proved equal to a step function on
 * table values, and the properties of the step are lemmas about the step.
 */
module Normalizers {
  import opened Wrappers
  import opened Text
  import opened Frames

  // ---------------------------------------------------------------------
  // Age

  const AgeName: string := "AGE"
  const MinAge: real := 0.0
  const MaxAge: real := 150.0

  /** Second choice: a name that is `AGE` or ends in " AGE" once upper-cased. */
  predicate EndsInAge(name: string) {
    Upper(name) == AgeName || EndsWith(Upper(name), " AGE")
  }

  /** Fallback: a name containing AGE but not TRIAGE. */
  predicate MentionsAge(name: string) {
    Contains(Upper(name), AgeName) && !Contains(Upper(name), "TRIAGE")
  }

  /**
   * The position of the age column: the column named exactly `AGE` if
   * there is one, else the first name ending in " AGE", else the first
   * name containing AGE but not TRIAGE.
   */
  function AgeColumn(names: seq<string>): (r: Option<nat>)
    ensures r.Some? ==> r.value < |names|
  {
    if AgeName in names then Some(IndexOf(names, AgeName))
    else match FirstWhere(names, EndsInAge)
      case Some(k) => Some(k)
      case None => FirstWhere(names, MentionsAge)
  }

  /** A value that is a number in [0, 150]. */
  predicate InAgeRange(env: Env, v: Value) {
    IsNumber(v) && MinAge <= ToNumeric(env, v).value <= MaxAge
  }

  /**
   * One cell of the age column: `pd.to_numeric(errors='coerce')`, then
   * values below 0 or above 150 become NaN.  A number in range is kept as
   * it is; text that parses to a number in range becomes that float; a
   * timestamp becomes its nanoseconds since the epoch, an `int64`, so it
   * survives only within 150 ns after the epoch.
   */
  function AgeCell(env: Env, c: Cell): (r: Cell)
    ensures r.NaN? || (r.Val? && InAgeRange(env, r.value))
    ensures c.Val? && InAgeRange(env, c.value) ==> r == c
    ensures c.Val? && ToNumeric(env, c.value).Some? && !(MinAge <= ToNumeric(env, c.value).value <= MaxAge) ==> r.NaN?
    ensures (!c.Val? || ToNumeric(env, c.value).None?) ==> r.NaN?
    ensures (c.Val? && c.value.Str? && ToNumeric(env, c.value).Some? && MinAge <= ToNumeric(env, c.value).value <= MaxAge)
              ==> r == Val(Float(ToNumeric(env, c.value).value))
    ensures (c.Val? && c.value.Time? && MinAge <= c.value.t as real <= MaxAge) ==> r == Val(Int(c.value.t))
  {
    var n := if c.Val? then ToNumeric(env, c.value) else None;
    if n.None? || n.value < MinAge || n.value > MaxAge then NaN
    else if c.value.Str? then Val(Float(n.value))
    else if c.value.Time? then Val(Int(c.value.t))
    else c
  }

  /**
   * A date in the age column is read by `to_numeric` as nanoseconds since
   * the epoch: any timestamp after 150 ns past the epoch, or before it, becomes NaN.
   */
  lemma TimestampAgeBecomesNan(env: Env, t: int)
    requires t < 0 || t > 150
    ensures ToNumeric(env, Time(t)) == Some(t as real)
    ensures AgeCell(env, Val(Time(t))).NaN?
  {
  }

  function AgeValues(env: Env, col: seq<Cell>): (r: seq<Cell>)
    ensures |r| == |col|
  {
    seq(|col|, i requires 0 <= i < |col| => AgeCell(env, col[i]))
  }

  /** `_process_age_column` on a table value. */
  function AgeStep(t: Table, env: Env): (r: Table)
    requires WellFormed(t)
    ensures WellFormed(r)
  {
    match AgeColumn(t.names)
    case None => t
    case Some(p) =>
      var converted := t.(cols := t.cols[p := AgeValues(env, t.cols[p])]);
      if t.names[p] != AgeName then converted.(names := RenameAll(t.names, t.names[p], AgeName)) else converted
  }

  /** `_process_age_column(df)` */
  method ProcessAgeColumn(df: Frame, env: Env)
    requires df.Valid()
    modifies df
    ensures df.Valid()
    ensures df.Snapshot() == AgeStep(old(df.Snapshot()), env)
  {
    var found := AgeColumn(df.names);
    if found.None? {
      return;
    }
    var p := found.value;
    var ageCol := df.names[p];
    df.SetColumn(p, AgeValues(env, df.cols[p]));
    if ageCol != AgeName {
      df.Rename(ageCol, AgeName);
    }
  }

  /**
   * The choice of age column follows the three rules in order: an exact
   * `AGE` wins, then the first name ending in " AGE", then the first name
   * mentioning AGE but not TRIAGE; with none of them there is no age column.
   */
  lemma AgeColumnPrecedence(names: seq<string>)
    ensures var r := AgeColumn(names);
      && (AgeName in names ==>
            r.Some? && names[r.value] == AgeName && forall j :: 0 <= j < r.value ==> names[j] != AgeName)
      && (AgeName !in names && (exists j :: 0 <= j < |names| && EndsInAge(names[j])) ==>
            r.Some? && EndsInAge(names[r.value]) && forall j :: 0 <= j < r.value ==> !EndsInAge(names[j]))
      && (AgeName !in names && (forall j :: 0 <= j < |names| ==> !EndsInAge(names[j])) ==>
            (r.Some? ==> MentionsAge(names[r.value]) && forall j :: 0 <= j < r.value ==> !MentionsAge(names[j]))
            && (r.None? <==> forall j :: 0 <= j < |names| ==> !MentionsAge(names[j])))
  {
  }

  /**
   * A name that mentions TRIAGE is only ever chosen as the age column when
   * it ends in " AGE"; so "TRIAGE LEVEL" never is.
   */
  lemma TriageIsNotAge(names: seq<string>)
    ensures forall p :: AgeColumn(names) == Some(p) ==>
      !Contains(Upper(names[p]), "TRIAGE") || EndsWith(Upper(names[p]), " AGE")
  {
    forall p | AgeColumn(names) == Some(p)
      ensures !Contains(Upper(names[p]), "TRIAGE") || EndsWith(Upper(names[p]), " AGE")
    {
      if AgeName in names {
        assert |Upper(names[p])| == 3;
      } else if FirstWhere(names, EndsInAge).Some? {
        assert EndsInAge(names[p]);
      } else {
        assert MentionsAge(names[p]);
      }
    }
  }

  lemma TriageLevelIsNeverAge(names: seq<string>)
    ensures forall p :: AgeColumn(names) == Some(p) ==> names[p] != "TRIAGE LEVEL"
  {
    TriageIsNotAge(names);
    var n := "TRIAGE LEVEL";
    assert Upper(n) == n;
    ContainsAt(n, "TRIAGE", 0);
    assert !EndsWith(n, " AGE");
  }

  /**
   * After the age step the chosen column is named `AGE`, every one of its
   * cells is the `AgeCell` of the old one, so NaN or a number in
   * [0, 150]: in-range numbers are unchanged, and out-of-range,
   * non-numeric and null values are NaN; every column named like it is
   * renamed, and nothing else changes.
   */
  lemma AgeStepSpec(t: Table, env: Env)
    requires WellFormed(t)
    ensures var r := AgeStep(t, env);
      && r.height == t.height && |r.cols| == |t.cols|
      && (AgeColumn(t.names).None? ==> r == t)
      && forall p :: AgeColumn(t.names) == Some(p) ==>
           && r.names[p] == AgeName
           && (forall j :: 0 <= j < |t.names| ==> r.names[j] == if t.names[j] == t.names[p] then AgeName else t.names[j])
           && (forall j :: 0 <= j < |t.cols| && j != p ==> r.cols[j] == t.cols[j])
           && (forall i :: 0 <= i < t.height ==> r.cols[p][i].NaN? || (r.cols[p][i].Val? && InAgeRange(env, r.cols[p][i].value)))
           && (forall i :: 0 <= i < t.height ==> r.cols[p][i] == AgeCell(env, t.cols[p][i]))
           && (forall i :: 0 <= i < t.height && t.cols[p][i].Val? && InAgeRange(env, t.cols[p][i].value) ==>
                 r.cols[p][i] == t.cols[p][i])
           && (forall i :: 0 <= i < t.height && (!t.cols[p][i].Val? || ToNumeric(env, t.cols[p][i].value).None?) ==>
                 r.cols[p][i].NaN?)
           && (forall i :: 0 <= i < t.height && t.cols[p][i].Val? && ToNumeric(env, t.cols[p][i].value).Some? ==>
                 MinAge <= ToNumeric(env, t.cols[p][i].value).value <= MaxAge || r.cols[p][i].NaN?)
  {
  }

  // ---------------------------------------------------------------------
  // Gender

  const GenderName: string := "GENDER"

  /** The fixed mapping of codes and spellings to the canonical vocabulary. */
  const GenderMapping: map<string, string> := map[
    "1" := "MALE", "1.0" := "MALE",
    "2" := "FEMALE", "2.0" := "FEMALE",
    "3" := "TRANSGENDER", "3.0" := "TRANSGENDER",
    "M" := "MALE", "MALE" := "MALE", "MAN" := "MALE",
    "F" := "FEMALE", "FEMALE" := "FEMALE", "WOMAN" := "FEMALE",
    "T" := "TRANSGENDER", "TRANSGENDER" := "TRANSGENDER", "TRANS" := "TRANSGENDER",
    "O" := "OTHER", "OTHER" := "OTHER", "OTHERS" := "OTHER"]

  const CanonicalGenders: set<string> := {"MALE", "FEMALE", "TRANSGENDER", "OTHER"}

  predicate IsGenderName(name: string) {
    Contains(Upper(name), "GENDER") || Contains(Upper(name), "SEX")
  }

  /** `.map(gender_mapping).fillna(upper)`: mapped values go to the vocabulary, the rest are kept. */
  function MapGender(u: string): (r: string)
    ensures u in GenderMapping ==> r in CanonicalGenders
    ensures u !in GenderMapping ==> r == u
  {
    if u in GenderMapping then GenderMapping[u] else u
  }

  /** One cell of the gender column: `str`, strip, upper-case, map.  NaN becomes the text "NAN". */
  function GenderCell(env: Env, c: Cell): (r: Cell)
    ensures r.Val? && r.value.Str?
  {
    Val(Str(MapGender(Upper(Strip(AsText(env, c))))))
  }

  function GenderValues(env: Env, col: seq<Cell>): (r: seq<Cell>)
    ensures |r| == |col|
  {
    seq(|col|, i requires 0 <= i < |col| => GenderCell(env, col[i]))
  }

  /** `_process_gender_column` on a table value: only the first gender-like column is touched. */
  function GenderStep(t: Table, env: Env): (r: Table)
    requires WellFormed(t)
    ensures WellFormed(r)
  {
    match FirstWhere(t.names, IsGenderName)
    case None => t
    case Some(p) =>
      var mapped := t.(cols := t.cols[p := GenderValues(env, t.cols[p])]);
      if t.names[p] != GenderName then mapped.(names := RenameAll(t.names, t.names[p], GenderName)) else mapped
  }

  /** `_process_gender_column(df)` */
  method ProcessGenderColumn(df: Frame, env: Env)
    requires df.Valid()
    modifies df
    ensures df.Valid()
    ensures df.Snapshot() == GenderStep(old(df.Snapshot()), env)
  {
    var found := FirstWhere(df.names, IsGenderName);
    if found.Some? {
      var p := found.value;
      var genderCol := df.names[p];
      df.SetColumn(p, GenderValues(env, df.cols[p]));
      if genderCol != GenderName {
        df.Rename(genderCol, GenderName);
      }
    }
  }

  /** Every canonical value maps to itself and is already stripped and upper-case. */
  lemma CanonicalGendersAreFixed(u: string)
    requires u in CanonicalGenders
    ensures u in GenderMapping && GenderMapping[u] == u && Upper(Strip(u)) == u
  {
    if u == "MALE" {
      assert GenderMapping["MALE"] == "MALE";
      FixedSpelling("MALE");
    } else if u == "FEMALE" {
      assert GenderMapping["FEMALE"] == "FEMALE";
      FixedSpelling("FEMALE");
    } else if u == "TRANSGENDER" {
      assert GenderMapping["TRANSGENDER"] == "TRANSGENDER";
      FixedSpelling("TRANSGENDER");
    } else {
      assert u == "OTHER";
      assert GenderMapping["OTHER"] == "OTHER";
      FixedSpelling("OTHER");
    }
  }

  /** A string of capital letters is its own strip-and-upper-case. */
  lemma FixedSpelling(u: string)
    requires |u| > 0 && forall i :: 0 <= i < |u| ==> 'A' <= u[i] <= 'Z'
    ensures Upper(Strip(u)) == u
  {
    StripOfTrimmed(u);
  }

  lemma MapGenderIsIdempotent(u: string)
    ensures MapGender(MapGender(u)) == MapGender(u)
  {
    if u in GenderMapping {
      CanonicalGendersAreFixed(MapGender(u));
    }
  }

  /** Normalising an already normalised gender cell changes nothing. */
  lemma GenderCellIsIdempotent(env: Env, c: Cell)
    ensures GenderCell(env, GenderCell(env, c)) == GenderCell(env, c)
  {
    var w := Upper(Strip(AsText(env, c)));
    StripUpperIsIdempotent(AsText(env, c));
    MappedGenderIsFixed(w);
    GenderCellOfText(env, MapGender(w));
  }

  /** A text cell prints as itself, so normalising it is mapping its stripped, upper-cased text. */
  lemma GenderCellOfText(env: Env, u: string)
    ensures GenderCell(env, Val(Str(u))) == Val(Str(MapGender(Upper(Strip(u)))))
  {
  }

  /** A stripped, upper-cased text maps to a value that strips, upper-cases and maps to itself. */
  lemma MappedGenderIsFixed(w: string)
    requires Upper(Strip(w)) == w
    ensures MapGender(Upper(Strip(MapGender(w)))) == MapGender(w)
  {
    if w in GenderMapping {
      CanonicalGendersAreFixed(MapGender(w));
    }
  }

  /** A missing gender is stored as the text "NAN", not restored to null. */
  lemma NullGenderBecomesNan(env: Env)
    ensures GenderCell(env, NaN) == Val(Str("NAN"))
  {
    assert AsText(env, NaN) == "nan";
    NullText();
    NanIsNoGender();
  }

  lemma NanIsNoGender()
    ensures NanText !in GenderMapping
  {
    assert NanText[0] == 'N' && NanText[1] == 'A';
  }

  /** The code "3.0" (a float read back as text) becomes TRANSGENDER. */
  lemma FloatCodeIsMapped(env: Env)
    ensures GenderCell(env, Val(Str("3.0"))) == Val(Str("TRANSGENDER"))
  {
    FloatCodeText();
    GenderLookups();
  }

  lemma FloatCodeText()
    ensures Upper(Strip("3.0")) == "3.0"
  {
    var s := "3.0";
    assert s[0] == '3' && s[2] == '0';
    StripOfTrimmed(s);
    UpperOfFloatCode();
  }

  lemma UpperOfFloatCode()
    ensures Upper("3.0") == "3.0"
  {
    var u := Upper("3.0");
    assert u[0] == '3' && u[1] == '.' && u[2] == '0';
  }

  /** The entries of the mapping that the examples below use. */
  lemma GenderLookups()
    ensures "3.0" in GenderMapping && GenderMapping["3.0"] == "TRANSGENDER"
    ensures "M" in GenderMapping && GenderMapping["M"] == "MALE"
    ensures "PREFER NOT TO SAY" !in GenderMapping
  {
  }

  /** Padding does not matter: a value with a space on each side maps as the bare value. */
  lemma GenderPaddingIsIgnored(env: Env, core: string)
    requires |core| > 0 && Trimmed(core)
    ensures GenderCell(env, Val(Str(" " + core + " "))) == GenderCell(env, Val(Str(core)))
  {
    StripOneSpace(core);
    StripOfTrimmed(core);
  }

  /** Nor does case: " m " becomes MALE. */
  lemma PaddedLetterIsMapped(env: Env)
    ensures GenderCell(env, Val(Str(" " + "m" + " "))) == Val(Str("MALE"))
  {
    GenderPaddingIsIgnored(env, "m");
    LowerLetterIsMapped(env);
  }

  lemma LowerLetterIsMapped(env: Env)
    ensures GenderCell(env, Val(Str("m"))) == Val(Str("MALE"))
  {
    LowerLetterText();
    GenderLookups();
  }

  lemma LowerLetterText()
    ensures Upper(Strip("m")) == "M"
  {
    StripOfTrimmed("m");
    UpperOfLetter();
  }

  lemma UpperOfLetter()
    ensures Upper("m") == "M"
  {
    var u := Upper("m");
    assert u[0] == 'M';
  }

  /** An answer outside the mapping is kept, upper-cased. */
  lemma UnmappedAnswerIsKept(env: Env)
    ensures GenderCell(env, Val(Str("Prefer not to say"))) == Val(Str("PREFER NOT TO SAY"))
  {
    UpperOfAnswer();
    GenderLookups();
  }

  lemma UpperOfAnswer()
    ensures Upper(Strip("Prefer not to say")) == "PREFER NOT TO SAY"
  {
    var s := "Prefer not to say";
    assert s[0] == 'P' && s[|s| - 1] == 'y';
    StripOfTrimmed(s);
    UpperOfAnswerText();
  }

  lemma UpperOfAnswerText()
    ensures Upper("Prefer not to say") == "PREFER NOT TO SAY"
  {
    var u := Upper("Prefer not to say");
    assert u[0] == 'P' && u[1] == 'R' && u[2] == 'E' && u[3] == 'F' && u[4] == 'E' && u[5] == 'R' && u[6] == ' ';
    assert u[7] == 'N' && u[8] == 'O' && u[9] == 'T' && u[10] == ' ' && u[11] == 'T' && u[12] == 'O' && u[13] == ' ';
    assert u[14] == 'S' && u[15] == 'A' && u[16] == 'Y';
  }

  /**
   * After the gender step the first gender-like column is named `GENDER`
   * and holds only text, mapped values in the canonical vocabulary; every
   * column named like it is renamed, and every other column keeps its name
   * and its cells.
   */
  lemma GenderStepSpec(t: Table, env: Env)
    requires WellFormed(t)
    ensures var r := GenderStep(t, env);
      && r.height == t.height && |r.cols| == |t.cols|
      && (FirstWhere(t.names, IsGenderName).None? ==> r == t)
      && forall p :: FirstWhere(t.names, IsGenderName) == Some(p) ==>
           && r.names[p] == GenderName
           && (forall j :: 0 <= j < |t.names| ==> r.names[j] == if t.names[j] == t.names[p] then GenderName else t.names[j])
           && (forall j :: 0 <= j < |t.cols| && j != p ==> r.cols[j] == t.cols[j])
           && (forall i :: 0 <= i < t.height ==> r.cols[p][i] == GenderCell(env, t.cols[p][i]))
           && (forall i :: 0 <= i < t.height ==> r.cols[p][i].Val? && r.cols[p][i].value.Str?)
  {
  }

  /** The renamed gender column is still the first gender-like column. */
  lemma GenderColumnIsStable(t: Table, env: Env, p: nat)
    requires WellFormed(t) && FirstWhere(t.names, IsGenderName) == Some(p)
    ensures FirstWhere(GenderStep(t, env).names, IsGenderName) == Some(p)
  {
    var names := GenderStep(t, env).names;
    assert IsGenderName(GenderName) by {
      assert Upper(GenderName) == GenderName;
      ContainsAt(GenderName, "GENDER", 0);
    }
    assert IsGenderName(names[p]);
    forall j | 0 <= j < p ensures !IsGenderName(names[j]) {
      assert t.names[j] != t.names[p];
    }
    var r := FirstWhere(names, IsGenderName);
    assert r.Some? && r.value <= p;
  }

  /** Running the gender step twice is running it once. */
  lemma GenderStepIsIdempotent(t: Table, env: Env)
    requires WellFormed(t)
    ensures GenderStep(GenderStep(t, env), env) == GenderStep(t, env)
  {
    var r := GenderStep(t, env);
    match FirstWhere(t.names, IsGenderName)
    case None =>
    case Some(p) =>
      GenderColumnIsStable(t, env, p);
      GenderValuesIsIdempotent(env, t.cols[p]);
      assert r.cols[p] == GenderValues(env, t.cols[p]);
      assert r.cols[p := GenderValues(env, r.cols[p])] == r.cols;
      assert r.names[p] == GenderName;
  }

  lemma GenderValuesIsIdempotent(env: Env, col: seq<Cell>)
    ensures GenderValues(env, GenderValues(env, col)) == GenderValues(env, col)
  {
    var once := GenderValues(env, col);
    forall i | 0 <= i < |col| ensures GenderCell(env, once[i]) == once[i] {
      GenderCellIsIdempotent(env, col[i]);
    }
  }

  // ---------------------------------------------------------------------
  // Dates

  const DateKeywords: seq<string> := ["DATE", "TIME", "CREATED", "UPDATED", "ADMISSION", "DISCHARGE"]

  predicate IsDateName(name: string) {
    ContainsAny(Upper(name), DateKeywords)
  }

  /** `pd.to_datetime(errors='coerce')` on one cell: a timestamp, or NaT for a null or a value that does not parse. */
  function DateCell(env: Env, c: Cell): (r: Cell)
    ensures r.NaT? || (r.Val? && r.value.Time?)
    ensures !c.Val? ==> r.NaT?
    ensures c.Val? && c.value.Time? ==> r == c
    ensures c.Val? && ToDatetime(env, c.value).None? ==> r.NaT?
    ensures c.Val? && ToDatetime(env, c.value).Some? ==> r == Val(Time(ToDatetime(env, c.value).value))
  {
    match c
    case NaN => NaT
    case NaT => NaT
    case Val(v) =>
      match ToDatetime(env, v)
      case None => NaT
      case Some(t) => Val(Time(t))
  }

  function CoerceDates(env: Env, col: seq<Cell>): (r: seq<Cell>)
    ensures |r| == |col|
  {
    seq(|col|, i requires 0 <= i < |col| => DateCell(env, col[i]))
  }

  /**
   * Column `j` after the date step: a date-named column is converted
   * unless converting it raises, in which case it is left as it was.
   */
  function DateColumnAfter(t: Table, env: Env, j: nat): (r: seq<Cell>)
    requires WellFormed(t) && j < |t.cols|
    ensures |r| == t.height
  {
    if IsDateName(t.names[j]) && !env.dateRaises(t.cols[j]) then CoerceDates(env, t.cols[j]) else t.cols[j]
  }

  /** `_process_date_columns` on a table value. */
  function DateStep(t: Table, env: Env): (r: Table)
    requires WellFormed(t)
    ensures WellFormed(r)
  {
    t.(cols := seq(|t.cols|, j requires 0 <= j < |t.cols| => DateColumnAfter(t, env, j)))
  }

  /**
   * `_process_date_columns(df)`: each date-keyword column is converted on
   * its own; one that raises is skipped (`except: continue`).
   */
  method ProcessDateColumns(df: Frame, env: Env)
    requires df.Valid()
    modifies df
    ensures df.Valid()
    ensures df.Snapshot() == DateStep(old(df.Snapshot()), env)
  {
    ghost var t := df.Snapshot();
    var j := 0;
    while j < |df.cols|
      invariant 0 <= j <= |df.cols|
      invariant df.Valid() && df.names == t.names && df.height == t.height && |df.cols| == |t.cols|
      invariant forall k :: 0 <= k < j ==> df.cols[k] == DateColumnAfter(t, env, k)
      invariant forall k :: j <= k < |df.cols| ==> df.cols[k] == t.cols[k]
    {
      if IsDateName(df.names[j]) && !env.dateRaises(df.cols[j]) {
        df.SetColumn(j, CoerceDates(env, df.cols[j]));
      }
      j := j + 1;
    }
  }

  /**
   * The date step changes no name and no row count; a column without a
   * date keyword, or on which conversion raises, keeps its cells; every
   * other date column holds the `DateCell` of each old cell: only
   * timestamps and NaT, a parsed value becoming its timestamp, and nulls
   * and unparsed values turned into NaT.
   */
  lemma DateStepSpec(t: Table, env: Env)
    requires WellFormed(t)
    ensures var r := DateStep(t, env);
      && r.names == t.names && r.height == t.height && |r.cols| == |t.cols|
      && (forall j :: 0 <= j < |t.cols| && (!IsDateName(t.names[j]) || env.dateRaises(t.cols[j])) ==> r.cols[j] == t.cols[j])
      && (forall j, i :: 0 <= j < |t.cols| && IsDateName(t.names[j]) && !env.dateRaises(t.cols[j]) && 0 <= i < t.height ==>
            r.cols[j][i] == DateCell(env, t.cols[j][i])
            && (r.cols[j][i].NaT? || (r.cols[j][i].Val? && r.cols[j][i].value.Time?))
            && (!t.cols[j][i].Val? || ToDatetime(env, t.cols[j][i].value).None? ==> r.cols[j][i].NaT?)
            && (t.cols[j][i].Val? && ToDatetime(env, t.cols[j][i].value).Some? ==>
                  r.cols[j][i] == Val(Time(ToDatetime(env, t.cols[j][i].value).value)))
            && (t.cols[j][i].Val? && t.cols[j][i].value.Time? ==> r.cols[j][i] == t.cols[j][i]))
  {
  }

  // ---------------------------------------------------------------------
  // Diagnosis text

  const NanText: string := "NAN"
  const NatText: string := "NAT"

  predicate IsDiagnosisName(name: string) {
    Contains(Upper(name), "DIAGNOSIS") || Contains(Upper(name), "CONDITION")
  }

  /**
   * One diagnosis cell: `str`, strip, upper-case; the text "NAN" becomes
   * NaN.  NaN comes back as NaN, but NaT, which prints as "NaT", is kept
   * as the text "NAT".
   */
  function DiagnosisCell(env: Env, c: Cell): (r: Cell)
    ensures r != Val(Str(NanText))
    ensures r.NaN? || (r.Val? && r.value.Str?)
    ensures r.Val? ==> Trimmed(r.value.s) && Upper(r.value.s) == r.value.s
    ensures c.NaN? ==> r.NaN?
    ensures c.NaT? ==> r == Val(Str(NatText))
    ensures Upper(Strip(AsText(env, c))) == NanText ==> r.NaN?
    ensures Upper(Strip(AsText(env, c))) != NanText ==> r == Val(Str(Upper(Strip(AsText(env, c)))))
  {
    var u := Upper(Strip(AsText(env, c)));
    CanonicalText(env, c);
    if u == NanText then NaN else Val(Str(u))
  }

  /** Stripping and upper-casing `str(cell)` gives canonical text: "NAN" for NaN and "NAT" for NaT. */
  lemma CanonicalText(env: Env, c: Cell)
    ensures Trimmed(Upper(Strip(AsText(env, c)))) && Upper(Upper(Strip(AsText(env, c)))) == Upper(Strip(AsText(env, c)))
    ensures c.NaN? ==> Upper(Strip(AsText(env, c))) == NanText
    ensures c.NaT? ==> Upper(Strip(AsText(env, c))) == NatText
  {
    UpperKeepsTrimmed(Strip(AsText(env, c)));
    UpperIsIdempotent(Strip(AsText(env, c)));
    if c.NaN? {
      NullText();
    } else if c.NaT? {
      NatTextIsKept();
    }
  }

  /** `str` of NaN is "nan", which strips to itself and upper-cases to "NAN". */
  lemma NullText()
    ensures Upper(Strip("nan")) == NanText
  {
    var s := "nan";
    assert s[0] == 'n' && s[2] == 'n';
    StripOfTrimmed(s);
    UpperOfNan();
  }

  lemma UpperOfNan()
    ensures Upper("nan") == NanText
  {
    var u := Upper("nan");
    assert u[0] == 'N' && u[1] == 'A' && u[2] == 'N';
  }

  /** `str` of NaT is "NaT", which strips to itself and upper-cases to "NAT", not "NAN". */
  lemma NatTextIsKept()
    ensures Upper(Strip("NaT")) == NatText && NatText != NanText
  {
    NatIsTrimmed();
    UpperOfNat();
    assert NatText[2] != NanText[2];
  }

  lemma NatIsTrimmed()
    ensures Strip("NaT") == "NaT"
  {
    var s := "NaT";
    assert s[0] == 'N' && s[2] == 'T';
    StripOfTrimmed(s);
  }

  lemma UpperOfNat()
    ensures Upper("NaT") == NatText
  {
    var u := Upper("NaT");
    assert u[0] == 'N' && u[1] == 'A' && u[2] == 'T';
  }

  /** A date that does not parse becomes NaT, and the diagnosis cleaning then keeps it as the text "NAT". */
  lemma UnparsedDateBecomesNatText(env: Env, c: Cell)
    requires !c.Val? || ToDatetime(env, c.value).None?
    ensures DiagnosisCell(env, DateCell(env, c)) == Val(Str(NatText))
  {
  }

  function DiagnosisValues(env: Env, col: seq<Cell>): (r: seq<Cell>)
    ensures |r| == |col|
  {
    seq(|col|, i requires 0 <= i < |col| => DiagnosisCell(env, col[i]))
  }

  function DiagnosisColumnAfter(t: Table, env: Env, j: nat): (r: seq<Cell>)
    requires WellFormed(t) && j < |t.cols|
    ensures |r| == t.height
  {
    if IsDiagnosisName(t.names[j]) then DiagnosisValues(env, t.cols[j]) else t.cols[j]
  }

  /** `_process_diagnosis_columns` on a table value. */
  function DiagnosisStep(t: Table, env: Env): (r: Table)
    requires WellFormed(t)
    ensures WellFormed(r)
  {
    t.(cols := seq(|t.cols|, j requires 0 <= j < |t.cols| => DiagnosisColumnAfter(t, env, j)))
  }

  /** `_process_diagnosis_columns(df)`: every DIAGNOSIS or CONDITION column, one at a time. */
  method ProcessDiagnosisColumns(df: Frame, env: Env)
    requires df.Valid()
    modifies df
    ensures df.Valid()
    ensures df.Snapshot() == DiagnosisStep(old(df.Snapshot()), env)
  {
    ghost var t := df.Snapshot();
    var j := 0;
    while j < |df.cols|
      invariant 0 <= j <= |df.cols|
      invariant df.Valid() && df.names == t.names && df.height == t.height && |df.cols| == |t.cols|
      invariant forall k :: 0 <= k < j ==> df.cols[k] == DiagnosisColumnAfter(t, env, k)
      invariant forall k :: j <= k < |df.cols| ==> df.cols[k] == t.cols[k]
    {
      if IsDiagnosisName(df.names[j]) {
        df.SetColumn(j, DiagnosisValues(env, df.cols[j]));
      }
      j := j + 1;
    }
  }

  lemma DiagnosisCellIsIdempotent(env: Env, c: Cell)
    ensures DiagnosisCell(env, DiagnosisCell(env, c)) == DiagnosisCell(env, c)
  {
    var d := DiagnosisCell(env, c);
    if d.Val? {
      StripOfTrimmed(d.value.s);
    }
  }

  /**
   * After the diagnosis step every diagnosis cell is the `DiagnosisCell`
   * of the old one: the stripped, upper-cased text, or NaN where that text
   * is "NAN".  No diagnosis cell is the text "NAN", other columns keep
   * their cells, and running the step again changes nothing.
   */
  lemma DiagnosisStepSpec(t: Table, env: Env)
    requires WellFormed(t)
    ensures var r := DiagnosisStep(t, env);
      && r.names == t.names && r.height == t.height && |r.cols| == |t.cols|
      && (forall j :: 0 <= j < |t.cols| && !IsDiagnosisName(t.names[j]) ==> r.cols[j] == t.cols[j])
      && (forall j, i :: 0 <= j < |t.cols| && IsDiagnosisName(t.names[j]) && 0 <= i < t.height ==>
            r.cols[j][i] == DiagnosisCell(env, t.cols[j][i])
            && (Upper(Strip(AsText(env, t.cols[j][i]))) == NanText ==> r.cols[j][i].NaN?)
            && (Upper(Strip(AsText(env, t.cols[j][i]))) != NanText ==>
                  r.cols[j][i] == Val(Str(Upper(Strip(AsText(env, t.cols[j][i]))))))
            && r.cols[j][i] != Val(Str(NanText)) && (r.cols[j][i].NaN? || (r.cols[j][i].Val? && r.cols[j][i].value.Str?)))
      && DiagnosisStep(r, env) == r
  {
    var r := DiagnosisStep(t, env);
    forall j | 0 <= j < |t.cols| ensures DiagnosisColumnAfter(r, env, j) == r.cols[j] {
      if IsDiagnosisName(t.names[j]) {
        forall i | 0 <= i < t.height ensures DiagnosisCell(env, r.cols[j][i]) == r.cols[j][i] {
          DiagnosisCellIsIdempotent(env, t.cols[j][i]);
        }
      }
    }
  }

  /** DIAGNOSIS_DATE is both a date column and a diagnosis column. */
  lemma DiagnosisDateIsBoth()
    ensures IsDateName("DIAGNOSIS_DATE") && IsDiagnosisName("DIAGNOSIS_DATE")
  {
    var n := "DIAGNOSIS_DATE";
    assert Upper(n) == n;
    ContainsAt(n, "DIAGNOSIS", 0);
    ContainsAt(n, "DATE", 10);
    assert DateKeywords[0] == "DATE";
  }

  /**
   * A column named like a date and like a diagnosis, such as
   * DIAGNOSIS_DATE, goes through the date step and then the diagnosis
   * step: a value that does not parse as a date, or a null, ends as the
   * text "NAT", not as a null.
   */
  lemma DateThenDiagnosisKeepsNat(t: Table, env: Env, j: nat, i: nat)
    requires WellFormed(t) && j < |t.cols| && i < t.height
    requires IsDateName(t.names[j]) && IsDiagnosisName(t.names[j]) && !env.dateRaises(t.cols[j])
    requires !t.cols[j][i].Val? || ToDatetime(env, t.cols[j][i].value).None?
    ensures DiagnosisStep(DateStep(t, env), env).cols[j][i] == Val(Str(NatText))
  {
    var d := DateStep(t, env);
    assert d.cols[j][i] == DateCell(env, t.cols[j][i]);
    UnparsedDateBecomesNatText(env, t.cols[j][i]);
  }
}
