/**
 * The table helpers beside the pipeline: the validation report, the K/M/B
 * suffix choice for large counts, null-token text cleaning, date-shape
 * detection, column-name standardisation and ten-year age buckets.
 */
module Utils {
  import opened Wrappers
  import opened Text
  import opened Frames
  import opened Cleaning

  // ---------------------------------------------------------------------
  // validate_data

  /** The `info` part of the report. */
  datatype Info = Info(totalRows: nat, totalColumns: nat, missingValues: nat, duplicateRows: nat)

  /** The report; `info` is `None` where the source leaves the dictionary empty. */
  datatype ValidationReport = ValidationReport(isValid: bool, errors: seq<string>, warnings: seq<string>, info: Option<Info>)

  const EmptyFrameError: string := "DataFrame is empty"

  /** The message for the one required column, with the list printed as Python prints it. */
  const MissingIdError: string := "Missing required columns: ['REGISTRY ID']"

  const DuplicateWarningPrefix: string := "Found "
  const DuplicateWarningSuffix: string := " duplicate Registry IDs (this is normal for diagnosis data)"

  /** The warning for `n` repeated identifiers. */
  function DuplicateWarning(n: nat): (w: string)
    ensures StartsWith(w, DuplicateWarningPrefix) && EndsWith(w, DuplicateWarningSuffix)
  {
    DuplicateWarningPrefix + IntToDecimal(n) + DuplicateWarningSuffix
  }

  /** The count in a duplicate warning, read back from its text. */
  function WarningCount(w: string): int
    requires |w| >= |DuplicateWarningPrefix| + |DuplicateWarningSuffix|
  {
    ParseInt(w[|DuplicateWarningPrefix|..|w| - |DuplicateWarningSuffix|])
  }

  /** The warning carries the duplicate count, and it can be read back. */
  lemma DuplicateWarningCount(n: nat)
    ensures WarningCount(DuplicateWarning(n)) == n
  {
    var w := DuplicateWarning(n);
    assert w[|DuplicateWarningPrefix|..|w| - |DuplicateWarningSuffix|] == IntToDecimal(n);
    IntRoundTrip(n);
  }

  /** `df.isnull().sum().sum()` */
  function TotalNulls(cols: seq<seq<Cell>>): nat {
    if |cols| == 0 then 0 else TotalNulls(cols[..|cols| - 1]) + NullCount(cols[|cols| - 1])
  }

  /** Null cells are cells: there are at most as many as the table has. */
  lemma {:induction false} TotalNullsBound(cols: seq<seq<Cell>>, height: nat)
    requires forall j :: 0 <= j < |cols| ==> |cols[j]| == height
    ensures TotalNulls(cols) <= |cols| * height
  {
    if |cols| > 0 {
      var last := cols[|cols| - 1];
      TotalNullsBound(cols[..|cols| - 1], height);
      NonNullPlusNull(last);
    }
  }

  /**
   * `validate_data`: an empty frame is invalid with one error and no
   * information; otherwise the report is valid exactly when `REGISTRY ID`
   * is a column, repeated identifiers only warn, and `info` counts rows,
   * columns, nulls and repeated rows.
   */
  method ValidateData(t: Table) returns (r: ValidationReport)
    requires WellFormed(t)
    ensures Empty(t) ==> r == ValidationReport(false, [EmptyFrameError], [], None)
    ensures !Empty(t) ==> (r.isValid <==> RegistryId in t.names)
    ensures !Empty(t) ==> r.errors == (if RegistryId in t.names then [] else [MissingIdError])
    ensures !Empty(t) ==>
              r.warnings == (if RegistryId in t.names && DupCount(t.cols[IndexOf(t.names, RegistryId)]) > 0
                             then [DuplicateWarning(DupCount(t.cols[IndexOf(t.names, RegistryId)]))] else [])
    ensures !Empty(t) ==> r.info == Some(Info(t.height, |t.cols|, TotalNulls(t.cols), DupCount(Rows(t))))
  {
    var isValid := true;
    var errors: seq<string> := [];
    var warnings: seq<string> := [];
    if Empty(t) {
      isValid := false;
      errors := errors + [EmptyFrameError];
      return ValidationReport(isValid, errors, warnings, None);
    }
    if RegistryId !in t.names {
      isValid := false;
      errors := errors + [MissingIdError];
    }
    if RegistryId in t.names {
      var duplicateIds := DupCount(t.cols[IndexOf(t.names, RegistryId)]);
      if duplicateIds > 0 {
        warnings := warnings + [DuplicateWarning(duplicateIds)];
      }
    }
    var info := Info(t.height, |t.cols|, TotalNulls(t.cols), DupCount(Rows(t)));
    return ValidationReport(isValid, errors, warnings, Some(info));
  }

  /** The counts in `info` stay within the table: nulls within its cells, repeated rows below its rows. */
  lemma InfoBounds(t: Table)
    requires WellFormed(t) && !Empty(t)
    ensures TotalNulls(t.cols) <= t.height * |t.cols|
    ensures DupCount(Rows(t)) < t.height
  {
    TotalNullsBound(t.cols, t.height);
    DupCountPlusDistinct(Rows(t));
    assert Rows(t)[0] in Elems(Rows(t));
  }

  // ---------------------------------------------------------------------
  // format_number

  /**
   * What `format_number` prints: a quotient with a suffix (its one-decimal
   * rendering is not modelled), or `str(n)` unchanged.
   */
  datatype Formatted = Scaled(quotient: real, suffix: char) | Plain(text: string)

  /** `format_number`: B, M or K by the first threshold reached, else the integer itself. */
  function FormatNumber(n: int): (r: Formatted)
    ensures r.Plain? <==> n < 1_000
    ensures r.Scaled? ==> (r.suffix == 'B' <==> n >= 1_000_000_000)
    ensures r.Scaled? ==> (r.suffix == 'M' <==> 1_000_000 <= n < 1_000_000_000)
    ensures r.Scaled? ==> (r.suffix == 'K' <==> 1_000 <= n < 1_000_000)
    ensures r.Scaled? ==> 1.0 <= r.quotient && (r.suffix != 'B' ==> r.quotient < 1000.0)
  {
    if n >= 1_000_000_000 then Scaled(n as real / 1_000_000_000.0, 'B')
    else if n >= 1_000_000 then Scaled(n as real / 1_000_000.0, 'M')
    else if n >= 1_000 then Scaled(n as real / 1_000.0, 'K')
    else Plain(IntToDecimal(n))
  }

  /** The scale a suffix stands for. */
  function SuffixScale(c: char): real {
    if c == 'B' then 1_000_000_000.0 else if c == 'M' then 1_000_000.0 else 1_000.0
  }

  /** Nothing is lost before the rendering: the number can be recovered from either form. */
  lemma FormatNumberRoundTrip(n: int)
    ensures FormatNumber(n).Plain? ==> ParseInt(FormatNumber(n).text) == n
    ensures FormatNumber(n).Scaled? ==> FormatNumber(n).quotient * SuffixScale(FormatNumber(n).suffix) == n as real
  {
    IntRoundTrip(n);
  }

  // ---------------------------------------------------------------------
  // clean_text_column

  /** The strings that `replace` turns into a null, compared before any stripping. */
  const NullTokens: seq<string> := ["nan", "NaN", "NULL", "null", ""]

  /** `clean_text_column` on one cell. */
  function CleanText(env: Env, c: Cell): (r: Cell)
    ensures r.NaN? <==> AsText(env, c) in NullTokens
    ensures r.NaN? || (r.Val? && r.value.Str?)
    ensures r.Val? ==> IsCanonical(r.value.s) && r.value.s == CanonicalName(AsText(env, c))
  {
    var s := AsText(env, c);
    if s in NullTokens then NaN
    else
      CanonicalNameIsCanonical(s);
      Val(Str(Upper(Strip(s))))
  }

  /** `clean_text_column` */
  function CleanTextColumn(env: Env, col: seq<Cell>): (r: seq<Cell>)
    ensures |r| == |col| && forall i :: 0 <= i < |col| ==> r[i] == CleanText(env, col[i])
  {
    seq(|col|, i requires 0 <= i < |col| => CleanText(env, col[i]))
  }

  /** A NaN cell prints as "nan" and so stays NaN. */
  lemma NullStaysNull(env: Env)
    ensures CleanText(env, NaN).NaN?
  {
  }

  /** A NaT cell prints as "NaT", which is no token: it becomes the text "NAT". */
  lemma NatBecomesText(env: Env)
    ensures CleanText(env, NaT) == Val(Str("NAT"))
  {
    assert AsText(env, NaT) == "NaT";
    NatIsNoToken();
    StripOfTrimmed("NaT");
    UpperNat();
  }

  lemma NatIsNoToken()
    ensures "NaT" !in NullTokens
  {
    assert "NaT"[2] == 'T';
  }

  lemma UpperNat()
    ensures Upper("NaT") == "NAT"
  {
    var u := Upper("NaT");
    assert u[0] == 'N' && u[1] == 'A' && u[2] == 'T';
  }

  /** The tokens are matched before stripping: a padded token is kept, stripped and upper-cased. */
  lemma PaddedTokenIsKept(env: Env, core: string)
    requires core in NullTokens && |core| > 0
    ensures CleanText(env, Val(Str(" " + core + " "))) == Val(Str(Upper(core)))
  {
    var padded := " " + core + " ";
    TokensAreShort();
    assert padded !in NullTokens;
    StripOneSpace(core);
  }

  lemma TokensAreShort()
    ensures forall x :: x in NullTokens ==> |x| <= 4
  {
  }

  /** So " null " becomes "NULL" rather than null. */
  lemma PaddedNullIsKept(env: Env)
    ensures CleanText(env, Val(Str(" " + "null" + " "))) == Val(Str("NULL"))
  {
    PaddedTokenIsKept(env, "null");
    UpperNull();
  }

  lemma UpperNull()
    ensures Upper("null") == "NULL"
  {
    var u := Upper("null");
    assert u[0] == 'N' && u[1] == 'U' && u[2] == 'L' && u[3] == 'L';
  }

  /**
   * Cleaning twice is cleaning once, except for the two results that are
   * themselves tokens: "NULL" and the empty string.
   */
  lemma CleanTextIsStable(env: Env, c: Cell)
    requires CleanText(env, c).Val?
    requires CleanText(env, c).value.s != "NULL" && CleanText(env, c).value.s != ""
    ensures CleanText(env, CleanText(env, c)) == CleanText(env, c)
  {
    var u := CleanText(env, c).value.s;
    UpperIsNoLowerToken(u);
    StripOfTrimmed(u);
  }

  /** The only tokens an upper-case string can be are "NULL" and the empty string. */
  lemma UpperIsNoLowerToken(u: string)
    requires Upper(u) == u && u != "NULL" && u != ""
    ensures u !in NullTokens
  {
    if |u| == 3 {
      assert u[1] == UpperChar(u[1]);
    } else if |u| == 4 {
      assert u[0] == UpperChar(u[0]);
    }
  }

  /** Hence cleaning is not idempotent: a padded "null" becomes null on the second pass. */
  lemma CleanTextTwiceNullsPaddedNull(env: Env)
    ensures CleanText(env, CleanText(env, Val(Str(" " + "null" + " ")))).NaN?
  {
    PaddedNullIsKept(env);
    assert "NULL" in NullTokens;
  }

  // ---------------------------------------------------------------------
  // is_date_like

  /** The four shapes, 'd' standing for `\d` and every other character for itself. */
  const DatePatterns: seq<string> := ["dddd-dd-dd", "dd/dd/dddd", "dd-dd-dddd", "dddd/dd/dd"]

  /** `re.match(pattern, s)`: `s` starts with a string of the shape. */
  predicate MatchesShape(pattern: string, s: string) {
    |pattern| <= |s|
    && forall i :: 0 <= i < |pattern| ==> (if pattern[i] == 'd' then IsDigit(s[i]) else s[i] == pattern[i])
  }

  /** The first shape in `patterns` that `s` matches, as the loop with early return finds it. */
  function FirstShape(patterns: seq<string>, s: string): (r: Option<nat>)
    ensures r.Some? ==> r.value < |patterns| && MatchesShape(patterns[r.value], s)
    ensures r.None? <==> forall k :: 0 <= k < |patterns| ==> !MatchesShape(patterns[k], s)
  {
    if |patterns| == 0 then None
    else if MatchesShape(patterns[0], s) then Some(0)
    else match FirstShape(patterns[1..], s)
      case None => None
      case Some(k) => Some(k + 1)
  }

  /** `is_date_like` */
  predicate IsDateLike(value: string) {
    FirstShape(DatePatterns, Strip(value)).Some?
  }

  /** `is_date_like` holds exactly when the stripped value starts with one of the four shapes. */
  lemma IsDateLikeSpec(value: string)
    ensures IsDateLike(value) <==> exists k :: 0 <= k < |DatePatterns| && MatchesShape(DatePatterns[k], Strip(value))
  {
  }

  /** Only the start is anchored: text after the shape does not matter. */
  lemma ShapeIgnoresTail(pattern: string, s: string, tail: string)
    requires MatchesShape(pattern, s)
    ensures MatchesShape(pattern, s + tail)
  {
    forall i | 0 <= i < |pattern| ensures (s + tail)[i] == s[i] { }
  }

  /** A date followed by a time still looks like a date. */
  lemma DateWithTimeIsDateLike()
    ensures IsDateLike("2024-01-15" + " 10:30")
  {
    var d, s := "2024-01-15", "2024-01-15" + " 10:30";
    IsoDateMatches();
    ShapeIgnoresTail(DatePatterns[0], d, " 10:30");
    assert s[0] == '2' && s[|s| - 1] == '0';
    StripOfTrimmed(s);
  }

  lemma IsoDateMatches()
    ensures MatchesShape(DatePatterns[0], "2024-01-15")
  {
  }

  /** A dotted date such as "15.01.2024" has none of the shapes. */
  lemma DottedDateIsNotDateLike(value: string)
    requires |Strip(value)| > 2 && Strip(value)[2] == '.'
    ensures !IsDateLike(value)
  {
    NoShapeAtDot(Strip(value));
  }

  /** A string with a dot third has none of the four shapes. */
  lemma NoShapeAtDot(s: string)
    requires |s| > 2 && s[2] == '.'
    ensures forall k :: 0 <= k < |DatePatterns| ==> !MatchesShape(DatePatterns[k], s)
  {
    forall k | 0 <= k < |DatePatterns| ensures !MatchesShape(DatePatterns[k], s) {
      var pattern := DatePatterns[k];
      assert pattern[2] == 'd' || pattern[2] == '/' || pattern[2] == '-';
      assert !(if pattern[2] == 'd' then IsDigit(s[2]) else s[2] == pattern[2]);
    }
  }

  // ---------------------------------------------------------------------
  // calculate_age_groups

  /** `int(x)` for a float: truncation toward zero. */
  function Truncate(x: real): (a: int)
    ensures x >= 0.0 ==> a as real <= x < a as real + 1.0
    ensures x < 0.0 ==> a as real - 1.0 < x <= a as real
  {
    if x >= 0.0 then x.Floor else -((-x).Floor)
  }

  /** The ten-year labels, `AgeLabels[k - 1]` for the k-th decade. */
  const AgeLabels: seq<string> := ["1-10", "11-20", "21-30", "31-40", "41-50", "51-60", "61-70", "71-80", "81-90"]
  const OldestLabel: string := "90+"
  const UnknownLabel: string := "Unknown"

  /** `categorize_age` on the truncated age. */
  function AgeBucket(a: int): string {
    if a <= 10 then "1-10"
    else if a <= 20 then "11-20"
    else if a <= 30 then "21-30"
    else if a <= 40 then "31-40"
    else if a <= 50 then "41-50"
    else if a <= 60 then "51-60"
    else if a <= 70 then "61-70"
    else if a <= 80 then "71-80"
    else if a <= 90 then "81-90"
    else "90+"
  }

  /** `categorize_age` */
  function CategorizeAge(age: Option<real>): string {
    match age
    case None => UnknownLabel
    case Some(x) => AgeBucket(Truncate(x))
  }

  /** `calculate_age_groups` */
  function CalculateAgeGroups(ages: seq<Option<real>>): (r: seq<string>)
    ensures |r| == |ages| && forall i :: 0 <= i < |ages| ==> r[i] == CategorizeAge(ages[i])
  {
    seq(|ages|, i requires 0 <= i < |ages| => CategorizeAge(ages[i]))
  }

  /**
   * The closed form of the chain of comparisons: ages up to 10 (zero and
   * negatives included) share the first label, `10(k-1) < a <= 10k` gets
   * the k-th for k = 2..9, and everything above 90 gets "90+".
   */
  lemma {:induction false} AgeBucketClosedForm(a: int)
    ensures a <= 10 ==> AgeBucket(a) == AgeLabels[0]
    ensures forall k :: 2 <= k <= 9 && 10 * (k - 1) < a <= 10 * k ==> AgeBucket(a) == AgeLabels[k - 1]
    ensures a > 90 ==> AgeBucket(a) == OldestLabel
  {
    forall k | 2 <= k <= 9 && 10 * (k - 1) < a <= 10 * k
      ensures AgeBucket(a) == AgeLabels[k - 1]
    {
      assert (a - 1) / 10 == k - 1;
    }
  }

  /** Every age gets one of the eleven labels. */
  lemma CategorizeAgeLabels(age: Option<real>)
    ensures CategorizeAge(age) in AgeLabels + [OldestLabel, UnknownLabel]
  {
  }

  /** Truncation happens before bucketing: 10.7 is ten years old, not eleven. */
  lemma FractionalAgeTruncates()
    ensures CategorizeAge(Some(10.7)) == "1-10"
    ensures CategorizeAge(Some(-3.5)) == "1-10"
  {
    assert Truncate(10.7) == 10;
    assert Truncate(-3.5) == -3;
  }

  // ---------------------------------------------------------------------
  // detect_date_columns

  /** The name keywords, matched against the lower-cased name. */
  const DateNameKeywords: seq<string> := ["date", "time", "created", "updated", "admission", "discharge", "birth", "dob"]

  predicate NameSuggestsDate(name: string) {
    ContainsAny(Lower(name), DateNameKeywords)
  }

  /** `col.dropna()`: the non-null values, in order. */
  function NonNullValues(col: seq<Cell>): (r: seq<Value>)
    ensures |r| <= |col|
    ensures forall v :: v in r ==> Val(v) in col
  {
    if |col| == 0 then []
    else
      var p := col[..|col| - 1];
      var last := col[|col| - 1];
      assert forall c :: c in p ==> c in col;
      NonNullValues(p) + (if last.Val? then [last.value] else [])
  }

  /** `col.dropna().head(10)` */
  function Sample(col: seq<Cell>): (r: seq<Value>)
    ensures |r| <= 10 && |r| <= |col|
    ensures |r| == if |NonNullValues(col)| < 10 then |NonNullValues(col)| else 10
    ensures r == NonNullValues(col)[..|r|]
  {
    var v := NonNullValues(col);
    if |v| <= 10 then v else v[..10]
  }

  /** `isinstance(value, str) and is_date_like(value)` */
  predicate DateLikeValue(v: Value) {
    v.Str? && IsDateLike(v.s)
  }

  function DateLikeCount(vs: seq<Value>): (n: nat)
    ensures n <= |vs|
  {
    if |vs| == 0 then 0
    else DateLikeCount(vs[..|vs| - 1]) + (if DateLikeValue(vs[|vs| - 1]) then 1 else 0)
  }

  /** At least half of the sample is date-like (`count >= len * 0.5`). */
  predicate LooksLikeDates(col: seq<Cell>) {
    2 * DateLikeCount(Sample(col)) >= |Sample(col)|
  }

  /** Column `j` is reported: a date-like name, or an object column whose sample looks like dates. */
  predicate IsDateColumn(t: Table, isObject: seq<bool>, j: nat)
    requires WellFormed(t) && |isObject| == |t.cols| && j < |t.cols|
  {
    NameSuggestsDate(t.names[j]) || (isObject[j] && LooksLikeDates(t.cols[j]))
  }

  function DateFlags(t: Table, isObject: seq<bool>): (r: seq<bool>)
    requires WellFormed(t) && |isObject| == |t.cols|
    ensures |r| == |t.cols| && forall j :: 0 <= j < |t.cols| ==> r[j] == IsDateColumn(t, isObject, j)
  {
    seq(|t.cols|, j requires 0 <= j < |t.cols| => IsDateColumn(t, isObject, j))
  }

  /** The names at the given positions, in that order. */
  function NamesAt(names: seq<string>, idx: seq<nat>): (r: seq<string>)
    requires forall k :: 0 <= k < |idx| ==> idx[k] < |names|
    ensures |r| == |idx| && forall k :: 0 <= k < |idx| ==> r[k] == names[idx[k]]
  {
    seq(|idx|, k requires 0 <= k < |idx| => names[idx[k]])
  }

  /** What `detect_date_columns` returns: the names of the reported columns, in column order. */
  function DateColumns(t: Table, isObject: seq<bool>): seq<string>
    requires WellFormed(t) && |isObject| == |t.cols|
  {
    NamesAt(t.names, IndicesWhere(DateFlags(t, isObject)))
  }

  /**
   * `detect_date_columns`; `isObject[j]` says whether column `j` has the
   * `object` dtype, which pandas records and the model takes as given.
   */
  method DetectDateColumns(t: Table, isObject: seq<bool>) returns (r: seq<string>)
    requires WellFormed(t) && |isObject| == |t.cols|
    ensures r == DateColumns(t, isObject)
  {
    var flags := DateFlags(t, isObject);
    r := [];
    var j := 0;
    while j < |t.cols|
      invariant 0 <= j <= |t.cols|
      invariant r == NamesAt(t.names, IndicesWhere(flags[..j]))
    {
      assert flags[..j + 1][..j] == flags[..j];
      var name := t.names[j];
      if ContainsAny(Lower(name), DateNameKeywords) {
        r := r + [name];
      } else if isObject[j] {
        var sample := Sample(t.cols[j]);
        var count := CountDateLike(sample);
        if 2 * count >= |sample| {
          r := r + [name];
        }
      }
      j := j + 1;
    }
    assert flags[..|t.cols|] == flags;
  }

  /** The counting loop over the sample of one column. */
  method CountDateLike(sample: seq<Value>) returns (count: nat)
    ensures count == DateLikeCount(sample)
  {
    count := 0;
    for k := 0 to |sample|
      invariant count == DateLikeCount(sample[..k])
    {
      assert sample[..k + 1][..k] == sample[..k];
      if sample[k].Str? && IsDateLike(sample[k].s) {
        count := count + 1;
      }
    }
    assert sample[..|sample|] == sample;
  }

  /**
   * The result lists, in column order, exactly the names of the reported
   * columns: every column with a date-like name, and every object column
   * whose sample looks like dates.
   */
  lemma DateColumnsSpec(t: Table, isObject: seq<bool>)
    requires WellFormed(t) && |isObject| == |t.cols|
    ensures |DateColumns(t, isObject)| <= |t.cols|
    ensures forall j :: 0 <= j < |t.cols| && IsDateColumn(t, isObject, j) ==> t.names[j] in DateColumns(t, isObject)
    ensures forall x :: x in DateColumns(t, isObject) ==>
              exists j :: 0 <= j < |t.cols| && t.names[j] == x && IsDateColumn(t, isObject, j)
  {
    var flags := DateFlags(t, isObject);
    var idx := IndicesWhere(flags);
    var r := DateColumns(t, isObject);
    CountTrueBound(flags);
    forall j | 0 <= j < |t.cols| && IsDateColumn(t, isObject, j)
      ensures t.names[j] in r
    {
      var k :| 0 <= k < |idx| && idx[k] == j;
      assert r[k] == t.names[j];
    }
    forall x | x in r
      ensures exists j :: 0 <= j < |t.cols| && t.names[j] == x && IsDateColumn(t, isObject, j)
    {
      var k :| 0 <= k < |r| && r[k] == x;
      assert flags[idx[k]];
    }
  }

  /** `birth` and `dob` count as date words here, unlike in the pipeline. */
  lemma BirthNamesSuggestDates()
    ensures NameSuggestsDate("DOB") && NameSuggestsDate("Birth Year")
  {
    assert Lower("DOB") == "dob";
    ContainsAt("dob", "dob", 0);
    assert Lower("Birth Year")[0..5] == "birth";
    ContainsAt(Lower("Birth Year"), "birth", 0);
  }

  /** An object column with no non-null value has an empty sample, and 0 >= 0 reports it. */
  lemma AllNullObjectColumnIsReported(t: Table, isObject: seq<bool>, j: nat)
    requires WellFormed(t) && |isObject| == |t.cols| && j < |t.cols|
    requires isObject[j] && forall i :: 0 <= i < t.height ==> !t.cols[j][i].Val?
    ensures IsDateColumn(t, isObject, j)
  {
    AllNullHasNoValues(t.cols[j]);
  }

  lemma {:induction false} AllNullHasNoValues(col: seq<Cell>)
    requires forall i :: 0 <= i < |col| ==> !col[i].Val?
    ensures NonNullValues(col) == []
  {
    if |col| > 0 {
      AllNullHasNoValues(col[..|col| - 1]);
    }
  }

  // ---------------------------------------------------------------------
  // standardize_column_names

  /** The renames, in the order the dictionary lists them. */
  const ColumnMappings: seq<(string, string)> := [
    ("PATIENT_ID", RegistryId), ("PATIENTID", RegistryId), ("ID", RegistryId), ("PATIENT_REGISTRY_ID", RegistryId),
    ("SEX", "GENDER"),
    ("DIAGNOSIS_CODE", "DIAGNOSIS"), ("DIAG_CODE", "DIAGNOSIS"), ("CONDITION", "DIAGNOSIS"),
    ("DIAGNOSIS_DATE", "DATE"), ("ADMISSION_DATE", "DATE"), ("VISIT_DATE", "DATE")]

  /** One mapping: renamed only when the old name is there and the new one is not. */
  function ApplyMapping(names: seq<string>, m: (string, string)): (r: seq<string>)
    ensures |r| == |names|
  {
    if m.0 in names && m.1 !in names then RenameAll(names, m.0, m.1) else names
  }

  /** The mappings applied one after another. */
  function ApplyMappings(names: seq<string>, ms: seq<(string, string)>): (r: seq<string>)
    ensures |r| == |names|
  {
    if |ms| == 0 then names else ApplyMapping(ApplyMappings(names, ms[..|ms| - 1]), ms[|ms| - 1])
  }

  function CanonicalNames(names: seq<string>): (r: seq<string>)
    ensures |r| == |names| && forall j :: 0 <= j < |names| ==> r[j] == CanonicalName(names[j])
  {
    seq(|names|, j requires 0 <= j < |names| => CanonicalName(names[j]))
  }

  /** The table `standardize_column_names` returns: same cells, standardised names. */
  function Standardized(t: Table): Table {
    t.(names := ApplyMappings(CanonicalNames(t.names), ColumnMappings))
  }

  /**
   * `standardize_column_names`: the result is a new frame; the argument is
   * left as it was, which the absence of a `modifies` clause guarantees.
   */
  method StandardizeColumnNames(df: Frame) returns (result: Frame)
    requires df.Valid()
    ensures fresh(result) && result.Valid()
    ensures result.Snapshot() == Standardized(df.Snapshot())
  {
    var t := df.Snapshot();
    var ms := ColumnMappings;
    var start := CanonicalNames(t.names);
    result := new Frame(t);
    result.SetNames(start);
    var k := 0;
    while k < |ms|
      invariant 0 <= k <= |ms|
      invariant fresh(result) && result.Valid()
      invariant result.Snapshot() == t.(names := ApplyMappings(start, ms[..k]))
    {
      ApplyMappingsStep(start, ms, k);
      var (from, to) := ms[k];
      if from in result.names && to !in result.names {
        result.Rename(from, to);
      }
      k := k + 1;
    }
    assert ms[..|ms|] == ms;
  }

  lemma ApplyMappingsStep(names: seq<string>, ms: seq<(string, string)>, k: nat)
    requires k < |ms|
    ensures ApplyMappings(names, ms[..k + 1]) == ApplyMapping(ApplyMappings(names, ms[..k]), ms[k])
  {
    assert ms[..k + 1][..k] == ms[..k];
  }

  /** A rename onto an absent name keeps the names distinct. */
  lemma RenameKeepsDistinct(names: seq<string>, from: string, to: string)
    requires Distinct(names) && to !in names
    ensures Distinct(RenameAll(names, from, to))
  {
  }

  /** Each mapping only renames onto an absent name, so distinct names stay distinct. */
  lemma {:induction false} ApplyMappingsKeepsDistinct(names: seq<string>, ms: seq<(string, string)>)
    requires Distinct(names)
    ensures Distinct(ApplyMappings(names, ms))
  {
    if |ms| > 0 {
      ApplyMappingsKeepsDistinct(names, ms[..|ms| - 1]);
      var p := ApplyMappings(names, ms[..|ms| - 1]);
      var m := ms[|ms| - 1];
      if m.0 in p && m.1 !in p {
        RenameKeepsDistinct(p, m.0, m.1);
      }
    }
  }

  /** Standardising never creates two columns of one name where cleaning the names did not. */
  lemma StandardizedKeepsDistinct(t: Table)
    requires Distinct(CanonicalNames(t.names))
    ensures Distinct(Standardized(t).names)
  {
    ApplyMappingsKeepsDistinct(CanonicalNames(t.names), ColumnMappings);
  }

  /** Mappings whose targets are trimmed upper-case names keep every name so. */
  lemma {:induction false} ApplyMappingsKeepsCanonical(names: seq<string>, ms: seq<(string, string)>)
    requires forall j :: 0 <= j < |names| ==> IsCanonical(names[j])
    requires forall k :: 0 <= k < |ms| ==> IsCanonical(ms[k].1)
    ensures forall j :: 0 <= j < |names| ==> IsCanonical(ApplyMappings(names, ms)[j])
  {
    if |ms| > 0 {
      ApplyMappingsKeepsCanonical(names, ms[..|ms| - 1]);
    }
  }

  /** Every standardised name is trimmed and upper-case. */
  lemma StandardizedNamesAreCanonical(t: Table)
    ensures forall j :: 0 <= j < |t.names| ==> IsCanonical(Standardized(t).names[j])
  {
    var names := CanonicalNames(t.names);
    forall j | 0 <= j < |names| ensures IsCanonical(names[j]) {
      CanonicalNameIsCanonical(t.names[j]);
    }
    assert IsCanonical(RegistryId) && IsCanonical("GENDER") && IsCanonical("DIAGNOSIS") && IsCanonical("DATE");
    ApplyMappingsKeepsCanonical(names, ColumnMappings);
  }

  /** A name that no mapping in `ms[j..k]` renames from is still there after them. */
  lemma {:induction false} MappingsKeepName(names: seq<string>, ms: seq<(string, string)>, j: nat, k: nat, x: string)
    requires j <= k <= |ms| && x in ApplyMappings(names, ms[..j])
    requires forall i :: j <= i < k ==> ms[i].0 != x
    ensures x in ApplyMappings(names, ms[..k])
  {
    if j < k {
      MappingsKeepName(names, ms, j, k - 1, x);
      ApplyMappingsStep(names, ms, k - 1);
      var p := ApplyMappings(names, ms[..k - 1]);
      assert RenameAll(p, ms[k - 1].0, ms[k - 1].1)[IndexOf(p, x)] == x;
    }
  }

  /** A name that no mapping in `ms[j..k]` renames to stays absent. */
  lemma {:induction false} MappingsKeepAbsent(names: seq<string>, ms: seq<(string, string)>, j: nat, k: nat, x: string)
    requires j <= k <= |ms| && x !in ApplyMappings(names, ms[..j])
    requires forall i :: j <= i < k ==> ms[i].1 != x
    ensures x !in ApplyMappings(names, ms[..k])
  {
    if j < k {
      MappingsKeepAbsent(names, ms, j, k - 1, x);
      ApplyMappingsStep(names, ms, k - 1);
    }
  }

  /**
   * Over the four identifier aliases: `REGISTRY ID` is present after the
   * first `k`, or nothing has changed yet and none of them was present.
   */
  lemma {:induction false} IdAliasesStep(names: seq<string>, k: nat)
    requires k <= 4
    ensures RegistryId in ApplyMappings(names, ColumnMappings[..k])
            || (ApplyMappings(names, ColumnMappings[..k]) == names
                && forall i :: 0 <= i < k ==> ColumnMappings[i].0 !in names)
  {
    if k > 0 {
      IdAliasesStep(names, k - 1);
      ApplyMappingsStep(names, ColumnMappings, k - 1);
      var m := ColumnMappings[k - 1];
      assert m.1 == RegistryId;
      if RegistryId !in ApplyMappings(names, ColumnMappings[..k - 1]) && m.0 in names {
        assert RenameAll(names, m.0, RegistryId)[IndexOf(names, m.0)] == RegistryId;
      }
    }
  }

  /** With `REGISTRY ID` or any of its aliases among the cleaned names, the result has `REGISTRY ID`. */
  lemma AliasGivesRegistryId(t: Table)
    requires RegistryId in CanonicalNames(t.names)
             || exists i :: 0 <= i < 4 && ColumnMappings[i].0 in CanonicalNames(t.names)
    ensures RegistryId in Standardized(t).names
  {
    var names := CanonicalNames(t.names);
    IdAliasesStep(names, 4);
    LaterSourcesAreNotRegistryId();
    MappingsKeepName(names, ColumnMappings, 4, |ColumnMappings|, RegistryId);
    AllMappings(names);
  }

  /** The first two mappings on names holding both aliases and no `REGISTRY ID`. */
  lemma FirstTwoAliases(names: seq<string>)
    requires "PATIENT_ID" in names && "PATIENTID" in names && RegistryId !in names
    ensures RegistryId in ApplyMappings(names, ColumnMappings[..1])
    ensures "PATIENT_ID" !in ApplyMappings(names, ColumnMappings[..1])
    ensures "PATIENTID" in ApplyMappings(names, ColumnMappings[..2])
  {
    var ms := ColumnMappings;
    ApplyMappingsStep(names, ms, 0);
    assert ms[..0] == [];
    var a1 := RenameAll(names, "PATIENT_ID", RegistryId);
    assert ApplyMappings(names, ms[..1]) == a1;
    assert a1[IndexOf(names, "PATIENT_ID")] == RegistryId;
    RenameAllKeepsIndex(names, "PATIENT_ID", RegistryId, "PATIENTID");
    ApplyMappingsStep(names, ms, 1);
  }

  lemma LaterSourcesAreNotRegistryId()
    ensures forall i :: 1 <= i < |ColumnMappings| ==> ColumnMappings[i].0 != RegistryId
    ensures forall i :: 2 <= i < |ColumnMappings| ==> ColumnMappings[i].0 != "PATIENTID"
    ensures forall i :: 1 <= i < |ColumnMappings| ==> ColumnMappings[i].1 != "PATIENT_ID"
  {
  }

  lemma AllMappings(names: seq<string>)
    ensures ApplyMappings(names, ColumnMappings[..|ColumnMappings|]) == ApplyMappings(names, ColumnMappings)
  {
    assert ColumnMappings[..|ColumnMappings|] == ColumnMappings;
  }

  /**
   * The mappings run in order and skip a present target: with PATIENT_ID
   * and PATIENTID both present, only PATIENT_ID becomes `REGISTRY ID`.
   */
  lemma FirstAliasWins(t: Table)
    requires "PATIENT_ID" in CanonicalNames(t.names) && "PATIENTID" in CanonicalNames(t.names)
    requires RegistryId !in CanonicalNames(t.names)
    ensures RegistryId in Standardized(t).names
    ensures "PATIENTID" in Standardized(t).names
    ensures "PATIENT_ID" !in Standardized(t).names
  {
    var names := CanonicalNames(t.names);
    var ms := ColumnMappings;
    FirstTwoAliases(names);
    LaterSourcesAreNotRegistryId();
    MappingsKeepName(names, ms, 1, |ms|, RegistryId);
    MappingsKeepName(names, ms, 2, |ms|, "PATIENTID");
    MappingsKeepAbsent(names, ms, 1, |ms|, "PATIENT_ID");
    AllMappings(names);
  }
}
