/**
 * `DataProcessor._find_sheet` and `DataProcessor._clean_dataframe`
 * (data_processor.py): choosing the patient and diagnosis sheets by name,
 * and turning a freshly read sheet into a table with no empty row or
 * column, canonical column names and, where one can be found, a column
 * called `REGISTRY ID`.
 */
module Cleaning {
  import opened Wrappers
  import opened Text
  import opened Frames

  const PatientSheetKeywords: seq<string> := ["patient", "patients", "patient_details"]
  const DiagnosisSheetKeywords: seq<string> := ["diagnosis", "diagnoses", "diagnosis_details", "diag"]

  /** The canonical identifier column. */
  const RegistryId: string := "REGISTRY ID"

  /** The substrings that make a column name look like an identifier. */
  const RegistryKeywords: seq<string> := ["REGISTRY", "ID", "PATIENT_ID", "PATIENTID"]

  // ---------------------------------------------------------------------
  // Sheet resolution

  /** Some keyword, lower-cased, occurs in the lower-cased sheet name. */
  predicate SheetMatches(sheet: string, keywords: seq<string>) {
    exists m :: 0 <= m < |keywords| && Contains(Lower(sheet), Lower(keywords[m]))
  }

  /** The first sheet, in workbook order, that matches some keyword. */
  function FirstSheet(sheetNames: seq<string>, keywords: seq<string>): (r: Option<string>)
    ensures r.None? <==> forall i :: 0 <= i < |sheetNames| ==> !SheetMatches(sheetNames[i], keywords)
    ensures r.Some? ==> exists i :: 0 <= i < |sheetNames| && r.value == sheetNames[i]
                          && SheetMatches(sheetNames[i], keywords)
                          && forall j :: 0 <= j < i ==> !SheetMatches(sheetNames[j], keywords)
  {
    match FirstWhere(sheetNames, s => SheetMatches(s, keywords))
    case None => None
    case Some(i) => Some(sheetNames[i])
  }

  /**
   * `_find_sheet`: for each sheet in order, for each keyword in order,
   * return the sheet as soon as the keyword occurs in its name.  Sheet order
   * decides, not keyword order.
   */
  method FindSheet(sheetNames: seq<string>, keywords: seq<string>) returns (r: Option<string>)
    ensures r == FirstSheet(sheetNames, keywords)
    ensures r.None? <==> forall i :: 0 <= i < |sheetNames| ==> !SheetMatches(sheetNames[i], keywords)
  {
    var i := 0;
    while i < |sheetNames|
      invariant 0 <= i <= |sheetNames|
      invariant forall j :: 0 <= j < i ==> !SheetMatches(sheetNames[j], keywords)
    {
      var k := 0;
      while k < |keywords|
        invariant 0 <= k <= |keywords|
        invariant forall m :: 0 <= m < k ==> !Contains(Lower(sheetNames[i]), Lower(keywords[m]))
      {
        if Contains(Lower(sheetNames[i]), Lower(keywords[k])) {
          FirstSheetIs(sheetNames, keywords, i);
          return Some(sheetNames[i]);
        }
        k := k + 1;
      }
      i := i + 1;
    }
    return None;
  }

  /** The first matching position determines `FirstSheet`. */
  lemma FirstSheetIs(sheetNames: seq<string>, keywords: seq<string>, i: nat)
    requires i < |sheetNames| && SheetMatches(sheetNames[i], keywords)
    requires forall j :: 0 <= j < i ==> !SheetMatches(sheetNames[j], keywords)
    ensures FirstSheet(sheetNames, keywords) == Some(sheetNames[i])
  {
  }

  // ---------------------------------------------------------------------
  // Table cleaning

  /** Row `i` holds at least one non-null cell. */
  predicate RowHasValue(t: Table, i: nat)
    requires WellFormed(t) && i < t.height
  {
    exists j :: 0 <= j < |t.cols| && t.cols[j][i].Val?
  }

  /** Column `j` holds at least one non-null cell. */
  predicate ColumnHasValue(t: Table, j: nat)
    requires WellFormed(t) && j < |t.cols|
  {
    exists i :: 0 <= i < t.height && t.cols[j][i].Val?
  }

  /** `df.dropna(how='all')` */
  function DropEmptyRows(t: Table): (r: Table)
    requires WellFormed(t)
    ensures WellFormed(r) && r.names == t.names
  {
    SelectRows(t, IndicesWhere(seq(t.height, i requires 0 <= i < t.height => RowHasValue(t, i))))
  }

  /** `df.dropna(axis=1, how='all')` */
  function DropEmptyColumns(t: Table): (r: Table)
    requires WellFormed(t)
    ensures WellFormed(r) && r.height == t.height
  {
    SelectColumns(t, IndicesWhere(seq(|t.cols|, j requires 0 <= j < |t.cols| => ColumnHasValue(t, j))))
  }

  /** `str(col).strip().upper()` */
  function CanonicalName(name: string): string {
    Upper(Strip(name))
  }

  predicate IsRegistryLike(name: string) {
    ContainsAny(Upper(name), RegistryKeywords)
  }

  /**
   * The identifier rename of `_clean_dataframe`: unless `REGISTRY ID` is
   * already a column, the first column whose name contains REGISTRY, ID,
   * PATIENT_ID or PATIENTID is renamed to it.
   */
  function CanonicalizeIdentifier(names: seq<string>): (r: seq<string>)
    ensures |r| == |names|
  {
    match FirstWhere(names, IsRegistryLike)
    case Some(k) => if RegistryId !in names then RenameAll(names, names[k], RegistryId) else names
    case None => names
  }

  /** `_clean_dataframe` */
  function CleanDataframe(t: Table): (r: Table)
    requires WellFormed(t)
    ensures WellFormed(r)
  {
    var d := DropEmptyColumns(DropEmptyRows(t));
    var names := seq(|d.names|, j requires 0 <= j < |d.names| => CanonicalName(d.names[j]));
    Table(CanonicalizeIdentifier(names), d.cols, d.height)
  }

  /** Every row left by `DropEmptyRows` has a value. */
  lemma DropEmptyRowsSpec(t: Table)
    requires WellFormed(t)
    ensures var r := DropEmptyRows(t);
      forall i :: 0 <= i < r.height ==> RowHasValue(r, i)
  {
    var r := DropEmptyRows(t);
    var idx := IndicesWhere(seq(t.height, i requires 0 <= i < t.height => RowHasValue(t, i)));
    forall i | 0 <= i < r.height ensures RowHasValue(r, i) {
      assert RowHasValue(t, idx[i]);
      var j :| 0 <= j < |t.cols| && t.cols[j][idx[i]].Val?;
      assert r.cols[j][i].Val?;
    }
  }

  /** A row that holds a value survives `DropEmptyRows`, cell for cell. */
  lemma DropEmptyRowsKeepsRow(t: Table, i: nat)
    requires WellFormed(t) && i < t.height && RowHasValue(t, i)
    ensures var r := DropEmptyRows(t);
      exists k :: 0 <= k < r.height && Row(r, k) == Row(t, i)
  {
    var r := DropEmptyRows(t);
    var flags := seq(t.height, i requires 0 <= i < t.height => RowHasValue(t, i));
    var idx := IndicesWhere(flags);
    assert flags[i];
    var k :| 0 <= k < |idx| && idx[k] == i;
    assert Row(r, k) == Row(t, i);
  }

  /** A column that holds a value survives `DropEmptyColumns`, with its name. */
  lemma DropEmptyColumnsKeepsColumn(t: Table, j: nat)
    requires WellFormed(t) && j < |t.cols| && ColumnHasValue(t, j)
    ensures var r := DropEmptyColumns(t);
      exists k :: 0 <= k < |r.cols| && r.cols[k] == t.cols[j] && r.names[k] == t.names[j]
  {
    var r := DropEmptyColumns(t);
    var flags := seq(|t.cols|, j requires 0 <= j < |t.cols| => ColumnHasValue(t, j));
    var idx := IndicesWhere(flags);
    assert flags[j];
    var k :| 0 <= k < |idx| && idx[k] == j;
    assert r.cols[k] == t.cols[j] && r.names[k] == t.names[j];
  }

  /**
   * Dropping the empty columns of a table whose rows all hold a value
   * leaves rows that all hold a value and columns that all hold one.
   */
  lemma DropEmptyColumnsSpec(t: Table)
    requires WellFormed(t)
    requires forall i :: 0 <= i < t.height ==> RowHasValue(t, i)
    ensures var r := DropEmptyColumns(t);
      && (forall i :: 0 <= i < r.height ==> RowHasValue(r, i))
      && (forall j :: 0 <= j < |r.cols| ==> ColumnHasValue(r, j))
  {
    var r := DropEmptyColumns(t);
    var flags := seq(|t.cols|, j requires 0 <= j < |t.cols| => ColumnHasValue(t, j));
    var idx := IndicesWhere(flags);
    forall i | 0 <= i < r.height ensures RowHasValue(r, i) {
      assert RowHasValue(t, i);
      var j :| 0 <= j < |t.cols| && t.cols[j][i].Val?;
      assert flags[j];
      assert j in idx;
      var k :| 0 <= k < |idx| && idx[k] == j;
      assert r.cols[k][i].Val?;
    }
    forall k | 0 <= k < |r.cols| ensures ColumnHasValue(r, k) {
      assert ColumnHasValue(t, idx[k]);
      var i :| 0 <= i < t.height && t.cols[idx[k]][i].Val?;
      assert r.cols[k][i].Val?;
    }
  }

  /** After cleaning, no row and no column is entirely null. */
  lemma CleanLeavesNoEmptyLine(t: Table)
    requires WellFormed(t)
    ensures var r := CleanDataframe(t);
      && (forall i :: 0 <= i < r.height ==> RowHasValue(r, i))
      && (forall j :: 0 <= j < |r.cols| ==> ColumnHasValue(r, j))
  {
    var d1 := DropEmptyRows(t);
    DropEmptyRowsSpec(t);
    DropEmptyColumnsSpec(d1);
    var d2 := DropEmptyColumns(d1);
    var r := CleanDataframe(t);
    assert r.cols == d2.cols && r.height == d2.height;
    forall i | 0 <= i < r.height ensures RowHasValue(r, i) {
      assert RowHasValue(d2, i);
    }
    forall j | 0 <= j < |r.cols| ensures ColumnHasValue(r, j) {
      assert ColumnHasValue(d2, j);
    }
  }

  /** A name as `_clean_dataframe` leaves it: trimmed and upper-case. */
  predicate IsCanonical(name: string) {
    Trimmed(name) && Upper(name) == name
  }

  lemma CanonicalNameIsCanonical(name: string)
    ensures IsCanonical(CanonicalName(name))
  {
    UpperKeepsTrimmed(Strip(name));
    UpperIsIdempotent(Strip(name));
  }

  /** After cleaning, every column name is trimmed and upper-case. */
  lemma CleanNamesAreCanonical(t: Table)
    requires WellFormed(t)
    ensures forall j :: 0 <= j < |CleanDataframe(t).names| ==> IsCanonical(CleanDataframe(t).names[j])
  {
    var d := DropEmptyColumns(DropEmptyRows(t));
    var names := seq(|d.names|, j requires 0 <= j < |d.names| => CanonicalName(d.names[j]));
    forall j | 0 <= j < |names| ensures IsCanonical(names[j]) {
      CanonicalNameIsCanonical(d.names[j]);
    }
    CanonicalizeIdentifierKeepsCanonical(names);
  }

  /** The identifier rename introduces only `REGISTRY ID`, itself a canonical name. */
  lemma CanonicalizeIdentifierKeepsCanonical(names: seq<string>)
    requires forall j :: 0 <= j < |names| ==> IsCanonical(names[j])
    ensures forall j :: 0 <= j < |names| ==> IsCanonical(CanonicalizeIdentifier(names)[j])
  {
    assert IsCanonical(RegistryId);
    var r := CanonicalizeIdentifier(names);
    assert forall j :: 0 <= j < |r| ==> r[j] == names[j] || r[j] == RegistryId;
  }

  /**
   * The identifier rename: with `REGISTRY ID` present nothing changes;
   * otherwise every column named like the first identifier-like column
   * becomes `REGISTRY ID` and no other column changes; with no
   * identifier-like column nothing changes.  Either way `REGISTRY ID` is
   * present afterwards exactly when it was or some column looked like an
   * identifier.
   */
  lemma CanonicalizeIdentifierSpec(names: seq<string>)
    ensures var r := CanonicalizeIdentifier(names);
      && (RegistryId in names ==> r == names)
      && (RegistryId in r <==> RegistryId in names || exists j :: 0 <= j < |names| && IsRegistryLike(names[j]))
      && (RegistryId !in names ==> forall k :: FirstWhere(names, IsRegistryLike) == Some(k) ==>
            && r[k] == RegistryId
            && (forall j :: 0 <= j < k ==> r[j] == names[j])
            && (forall j :: 0 <= j < |names| && names[j] == names[k] ==> r[j] == RegistryId)
            && (forall j :: 0 <= j < |names| && names[j] != names[k] ==> r[j] == names[j]))
  {
    var r := CanonicalizeIdentifier(names);
    match FirstWhere(names, IsRegistryLike)
    case None =>
    case Some(k) =>
      if RegistryId !in names {
        assert r[k] == RegistryId;
        forall j | 0 <= j < k ensures r[j] == names[j] {
          assert !IsRegistryLike(names[j]);
        }
      }
  }

  /** `REGISTRY ID` itself looks like an identifier, so a second rename finds it and does nothing. */
  lemma CanonicalizeIdentifierIsIdempotent(names: seq<string>)
    ensures CanonicalizeIdentifier(CanonicalizeIdentifier(names)) == CanonicalizeIdentifier(names)
  {
    CanonicalizeIdentifierSpec(names);
    CanonicalizeIdentifierSpec(CanonicalizeIdentifier(names));
  }
}
