# HospitalInsights ingestion pipeline, modelled in Dafny

This project models the data-ingestion core of HospitalInsights.

`DataProcessor.process_excel_file` takes an Excel workbook holding a patient sheet and a diagnosis sheet. It finds the two sheets by name and cleans each table. It validates and normalises the identifier, age, gender, date and diagnosis columns. It then left-joins the diagnoses with the patients on `REGISTRY ID`. Only when every stage succeeds does it store the three tables on the processor. The table helpers of `utils.py` are modelled as well: the validation report, `format_number`, `clean_text_column`, `is_date_like`, `detect_date_columns`, `standardize_column_names` and `calculate_age_groups`.

Layout:

- `wrappers.dfy` holds `Option` and `Result`.
- `text.dfy` (module `Text`) holds `str.strip`, `upper`, `lower`, the substring test and `str(n)` with its inverse.
- `frames.dfy` (module `Frames`) holds the table:
  - `Table(names, cols, height)` is a column-major value. A cell is `NaN` (the null of a text or numeric column), `NaT` (the null of a datetime column) or a value. A value is text, an `int64` integer, a `float64` number or a timestamp, so `str()` prints 101 and 101.0 differently.
  - The mutable `Frame` class has the in-place primitives: `df[c] = ...`, `df.columns = ...` and `df.rename(..., inplace=True)`.
  - Behaviour of pandas that the model does not look inside is supplied through the `Env` parameter: `str()` of a number or timestamp, `pd.to_numeric`, `pd.to_datetime` and whether it raises.
- `cleaning.dfy` (module `Cleaning`) holds `_find_sheet` and `_clean_dataframe`.
- `normalizers.dfy` (module `Normalizers`) holds the four per-role steps. Each step is a method that rewrites a `Frame` in place and is proved equal to a step function on table values.
- `join.dfy` (module `Join`) holds `_merge_data`:
  - the left join as a sequence of (diagnosis row, patient row or none) pairs;
  - the suffixed names;
  - the empty-result error;
  - the match count.
- `processor.dfy` (module `Processor`) holds identifier validation, the whole pipeline as the function `Pipeline`, and the `DataProcessor` class. Its `ProcessExcelFile` sets the three fields only on success.
- `utils.dfy` (module `Utils`) holds the helpers of `utils.py`.

The join's error message suggests that it fails when the two tables share no identifier. The code raises only when the merged frame is empty (data_processor.py:215-216). For a left join driven by the diagnosis table, that happens exactly when the diagnosis table has no rows. The model follows the code: `Join.MergeData` fails iff `d.height == 0`, and `Join.DisjointIdentifiersStillMerge` shows that disjoint identifiers still merge.

## Model

| member | source | states |
|---|---|---|
| Text.Strip | data_processor.py:78 | `strip()` leaves a slice of its input with white space removed at both ends and none left at either end |
| Text.StripUpperIsIdempotent | data_processor.py:78 | stripping and upper-casing a name a second time changes nothing |
| Text.IntRoundTrip | utils.py:72 | `int(str(n)) == n` for every integer, so `str(number)` loses nothing |
| Frames.FirstWhere | data_processor.py:81-84 | the first position satisfying the test, none before it satisfies it, and none is found iff no position does |
| Frames.IndicesWhere | data_processor.py:75 | the kept positions are exactly the true ones of the mask, in increasing order, as many as the mask counts |
| Frames.SelectRows | data_processor.py:75 | the selected rows carry the cells of the chosen rows, in the chosen order, under the same names |
| Frames.SelectColumns | data_processor.py:75 | the selected columns carry the names and cells of the chosen columns, in the chosen order |
| Frames.DupCountPlusDistinct | utils.py:39 | `duplicated().sum()` plus the number of distinct entries is the length |
| Frames.DupCountZero | utils.py:39-40 | no entry counts as duplicated iff all entries differ |
| Frames.NonNullPlusNull | data_processor.py:94 | the non-null and the null cells of a column add up to its length |
| Frames.IntAndFloatTexts | data_processor.py:97 | `str()` of a whole number below 10^16 from a float column is its `str()` from an int column followed by ".0"; only the float text has a decimal point, so the two differ |
| Frames.IntToDecimalHasNoPoint | data_processor.py:97 | `str(n)` of an integer has no decimal point |
| Frames.AsText | data_processor.py:97 | `astype(str)` of one cell: "nan" for NaN, "NaT" for NaT, the text itself, `str(n)` of an integer, `str(x)` of a float (a whole float below 10^16 is its integer followed by ".0"), and the supplied rendering of a timestamp |
| Frames.ToNumeric | data_processor.py:141 | `pd.to_numeric(errors='coerce')` of a non-null cell: numbers of either dtype are kept (so never fail), text is parsed by the supplied parser, and a timestamp of a `datetime64` column is read as its nanoseconds since the epoch |
| Frames.ToDatetime | data_processor.py:190 | `pd.to_datetime(errors='coerce')` of a non-null cell: a timestamp is kept, anything else is parsed by the supplied parser |
| Frames.Empty | utils.py:24 | `df.empty`: no rows or no columns |
| Frames.DupCount | utils.py:39 | `duplicated().sum()`: the entries equal to an earlier one; characterised by `Frames.DupCountPlusDistinct` and `Frames.DupCountZero` |
| Frames.NullCount | data_processor.py:94 | the NaN and NaT cells of a column; characterised by `Frames.NonNullPlusNull` |
| Frames.Frame.constructor | utils.py:158 | the new frame holds exactly the given table |
| Frames.Frame.SetColumn | data_processor.py:97 | `df[c] = col` replaces that column and changes nothing else |
| Frames.Frame.SetNames | utils.py:161 | `df.columns = ns` replaces the names and changes nothing else |
| Frames.Frame.Rename | data_processor.py:148 | `rename(inplace=True)` renames every column of the old name and changes nothing else |
| Cleaning.FirstSheet | data_processor.py:64-70 | the result is none iff no sheet matches; otherwise it is a matching sheet with no matching sheet before it, so sheet order beats keyword order |
| Cleaning.FindSheet | data_processor.py:64-70 | the nested loop with early return computes `FirstSheet` |
| Cleaning.FirstSheetIs | data_processor.py:64-70 | the first matching sheet in order is the one returned |
| Cleaning.SheetMatches | data_processor.py:67-68 | a sheet matches when its lower-cased name contains some lower-cased keyword |
| Cleaning.CanonicalName | data_processor.py:78 | `str(col).strip().upper()`; canonical by `Cleaning.CanonicalNameIsCanonical` |
| Cleaning.IsRegistryLike | data_processor.py:81 | the upper-cased name contains REGISTRY, ID, PATIENT_ID or PATIENTID |
| Cleaning.DropEmptyRows | data_processor.py:75 | `dropna(how='all')` keeps the column names and a rectangular table |
| Cleaning.DropEmptyRowsSpec | data_processor.py:75 | every row left holds a non-null cell |
| Cleaning.DropEmptyRowsKeepsRow | data_processor.py:75 | every row that holds a non-null cell survives, cell for cell |
| Cleaning.DropEmptyColumns | data_processor.py:75 | `dropna(axis=1, how='all')` keeps the row count |
| Cleaning.DropEmptyColumnsSpec | data_processor.py:75 | after both drops, every row and every column holds a non-null cell |
| Cleaning.DropEmptyColumnsKeepsColumn | data_processor.py:75 | every column that holds a non-null cell survives, with its name |
| Cleaning.CanonicalizeIdentifier | data_processor.py:81-84 | the rename keeps the number of names |
| Cleaning.CleanDataframe | data_processor.py:72-86 | cleaning yields a rectangular table |
| Cleaning.CleanLeavesNoEmptyLine | data_processor.py:75 | after cleaning, no row and no column is entirely null |
| Cleaning.CanonicalNameIsCanonical | data_processor.py:78 | `str(col).strip().upper()` is trimmed and upper-case |
| Cleaning.CleanNamesAreCanonical | data_processor.py:78-84 | every cleaned column name is trimmed and upper-case, the renamed identifier included |
| Cleaning.CanonicalizeIdentifierKeepsCanonical | data_processor.py:81-84 | the identifier rename keeps all names trimmed and upper-case |
| Cleaning.CanonicalizeIdentifierSpec | data_processor.py:81-84 | with `REGISTRY ID` present nothing is renamed; `REGISTRY ID` is present afterwards iff it was or some name contains an identifier keyword; otherwise the first such column and every column of the same name become `REGISTRY ID`, and every other name is untouched |
| Cleaning.CanonicalizeIdentifierIsIdempotent | data_processor.py:81-84 | cleaning the identifier twice is cleaning it once |
| Normalizers.AgeColumn | data_processor.py:125-138 | the chosen age column is a position of the table |
| Normalizers.AgeColumnPrecedence | data_processor.py:125-138 | exact `AGE` first, then the first name ending in " AGE", then the first name containing AGE but not TRIAGE, else no column |
| Normalizers.TriageIsNotAge | data_processor.py:130-133 | a chosen column mentioning TRIAGE must end in " AGE" |
| Normalizers.TriageLevelIsNeverAge | data_processor.py:133 | "TRIAGE LEVEL" is never chosen |
| Normalizers.AgeCell | data_processor.py:141-143 | the result is NaN or a number in [0, 150]; in-range numbers are kept with their dtype; every value whose `to_numeric` is outside [0, 150] (a number, parsed text or a timestamp's nanoseconds) becomes NaN, and so do nulls and values that do not parse; parsable in-range text becomes its float, and a timestamp within 150 ns after the epoch its integer nanoseconds |
| Normalizers.TimestampAgeBecomesNan | data_processor.py:141-143 | a date in the age column is read as nanoseconds since the epoch, so every timestamp before the epoch or more than 150 ns after it becomes NaN |
| Normalizers.AgeValues | data_processor.py:141-143 | the coerced column keeps its length |
| Normalizers.AgeStep | data_processor.py:123-150 | the age step keeps the table rectangular |
| Normalizers.AgeStepSpec | data_processor.py:140-148 | without an age column nothing changes; otherwise only the chosen column changes, it and its name-mates are renamed `AGE`, each cell is the `AgeCell` of the old one: in-range numbers unchanged, out-of-range, non-numeric and null values NaN |
| Normalizers.ProcessAgeColumn | data_processor.py:123-150 | rewriting the frame in place yields `AgeStep` of the old frame |
| Normalizers.MapGender | data_processor.py:161-172 | mapped values land in MALE, FEMALE, TRANSGENDER or OTHER; unmapped values are kept |
| Normalizers.IsGenderName | data_processor.py:154 | the upper-cased name contains GENDER or SEX |
| Normalizers.GenderCell | data_processor.py:158-172 | every gender cell becomes text, a null included |
| Normalizers.GenderValues | data_processor.py:158-172 | the mapped column keeps its length |
| Normalizers.GenderStep | data_processor.py:152-181 | the gender step keeps the table rectangular |
| Normalizers.ProcessGenderColumn | data_processor.py:152-181 | rewriting the frame in place yields `GenderStep` of the old frame |
| Normalizers.CanonicalGendersAreFixed | data_processor.py:161-169 | each of MALE, FEMALE, TRANSGENDER and OTHER maps to itself and is already stripped and upper-case |
| Normalizers.MapGenderIsIdempotent | data_processor.py:172 | mapping a mapped value changes nothing |
| Normalizers.GenderCellIsIdempotent | data_processor.py:158-172 | normalising a normalised cell changes nothing |
| Normalizers.NullGenderBecomesNan | data_processor.py:158 | a null gender becomes the text "NAN" and is not restored to null |
| Normalizers.FloatCodeIsMapped | data_processor.py:164 | "3.0" becomes TRANSGENDER |
| Normalizers.GenderLookups | data_processor.py:161-169 | the mapping sends "3.0" to TRANSGENDER and "M" to MALE, and has no entry for "PREFER NOT TO SAY" |
| Normalizers.GenderPaddingIsIgnored | data_processor.py:158 | a value padded with a space on each side maps as the bare value |
| Normalizers.PaddedLetterIsMapped | data_processor.py:158-172 | " m " becomes MALE |
| Normalizers.LowerLetterIsMapped | data_processor.py:165-172 | "m" becomes MALE |
| Normalizers.UnmappedAnswerIsKept | data_processor.py:172 | "Prefer not to say" becomes "PREFER NOT TO SAY" |
| Normalizers.GenderStepSpec | data_processor.py:152-181 | without a GENDER/SEX column nothing changes; otherwise only the first such column changes, it alone is renamed `GENDER` (every other name is kept), and each cell is its normalised text |
| Normalizers.GenderColumnIsStable | data_processor.py:154-181 | after the step the renamed column is still the first gender-like column |
| Normalizers.GenderStepIsIdempotent | data_processor.py:152-181 | running the gender step twice is running it once |
| Normalizers.GenderValuesIsIdempotent | data_processor.py:158-172 | normalising a normalised gender column changes nothing |
| Normalizers.DateCell | data_processor.py:190 | the result is NaT or a timestamp; a value that parses becomes its parsed timestamp; NaN, NaT and values that do not parse become NaT; timestamps are kept |
| Normalizers.IsDateName | data_processor.py:185-186 | the upper-cased name contains DATE, TIME, CREATED, UPDATED, ADMISSION or DISCHARGE |
| Normalizers.CoerceDates | data_processor.py:190 | the coerced column keeps its length |
| Normalizers.DateColumnAfter | data_processor.py:188-192 | each column's new cells keep the table's height |
| Normalizers.DateStep | data_processor.py:183-192 | the date step keeps the table rectangular |
| Normalizers.DateStepSpec | data_processor.py:183-192 | names are unchanged; a non-date column, or one on which conversion raises, is unchanged; in every other date column each cell is the `DateCell` of the old one: parsed values become their timestamps, nulls and unparsed values NaT |
| Normalizers.ProcessDateColumns | data_processor.py:183-192 | the per-column loop with skip-on-failure yields `DateStep` of the old frame |
| Normalizers.DiagnosisCell | data_processor.py:200-202 | the result is the stripped, upper-cased `str(cell)`, or NaN when that text is "NAN"; so it is never the text "NAN", NaN stays NaN, and NaT, printed "NaT", becomes the text "NAT" |
| Normalizers.IsDiagnosisName | data_processor.py:196 | the upper-cased name contains DIAGNOSIS or CONDITION |
| Normalizers.CanonicalText | data_processor.py:200 | stripped, upper-cased `str(cell)` is canonical; it is "NAN" for NaN and "NAT" for NaT |
| Normalizers.NullText | data_processor.py:200-202 | `str` of NaN strips and upper-cases to "NAN" |
| Normalizers.NatTextIsKept | data_processor.py:200-202 | `str` of NaT strips and upper-cases to "NAT", which is not "NAN" and so is not replaced |
| Normalizers.UnparsedDateBecomesNatText | data_processor.py:190-202 | a null or a value that does not parse as a date becomes NaT, and diagnosis cleaning turns that into the text "NAT" |
| Normalizers.DiagnosisValues | data_processor.py:200-202 | the cleaned column keeps its length |
| Normalizers.DiagnosisColumnAfter | data_processor.py:198-202 | each column's new cells keep the table's height |
| Normalizers.DiagnosisStep | data_processor.py:194-202 | the diagnosis step keeps the table rectangular |
| Normalizers.ProcessDiagnosisColumns | data_processor.py:194-202 | the per-column loop yields `DiagnosisStep` of the old frame |
| Normalizers.DiagnosisCellIsIdempotent | data_processor.py:200-202 | cleaning a cleaned diagnosis cell changes nothing |
| Normalizers.DiagnosisStepSpec | data_processor.py:194-202 | names are unchanged; non-diagnosis columns are unchanged; each DIAGNOSIS/CONDITION cell is the stripped, upper-cased text of the old one, or NaN where that text is "NAN"; the step is idempotent |
| Normalizers.DiagnosisDateIsBoth | data_processor.py:185-198 | the name DIAGNOSIS_DATE is both a date name and a diagnosis name |
| Normalizers.DateThenDiagnosisKeepsNat | data_processor.py:183-202 | in a column named like both, a null or a value that does not parse as a date ends as the text "NAT" after the date and diagnosis steps, not as a null |
| Join.KeyColumn | data_processor.py:210 | the identifier column is as long as the table |
| Join.Matches | data_processor.py:208-213 | exactly the patient rows with an equal identifier, in increasing order |
| Join.PairsFor | data_processor.py:208-213 | one pair per matching patient row, or one unmatched pair when there is none |
| Join.JoinPairs | data_processor.py:208-213 | at least one result row per diagnosis row (none iff there are none); every pair is sound (equal keys, or a key no patient has) and diagnosis order is kept |
| Join.JoinPairsComplete | data_processor.py:208-213 | every diagnosis row meets every patient row with an equal identifier, and appears unmatched when there is none |
| Join.MatchesOfDistinct | data_processor.py:208-213 | with unique patient identifiers a diagnosis row meets at most one patient row |
| Join.JoinPairsOfDistinct | data_processor.py:208-213 | with unique patient identifiers there is exactly one result row per diagnosis row |
| Join.RightColumns | data_processor.py:208-212 | the patient columns joining the result are exactly the non-key ones |
| Join.MergePairs | data_processor.py:208-213 | the join on the two identifier columns; no row is lost and every pair names rows of the two tables |
| Join.MergedNames | data_processor.py:212 | the diagnosis names with `_DIAG` on a shared non-key name, then the non-key patient names with `_PATIENT` on a shared name |
| Join.MergeNamesSpec | data_processor.py:208-212 | each name is suffixed exactly when the other side carries it, and the key keeps its name |
| Join.LeftCells | data_processor.py:208-213 | each diagnosis column is read at the diagnosis row of every pair |
| Join.RightCells | data_processor.py:208-213 | each non-key patient column is read at the patient row of every pair, and is NaN in an unmatched pair |
| Join.MergeTable | data_processor.py:208-213 | the merged table is rectangular, has one row per pair, the diagnosis columns then the non-key patient columns, and the suffixed names |
| Join.MergeData | data_processor.py:204-227 | fails iff the diagnosis table has no rows, with "Error merging data: No matching records found between patient and diagnosis data"; otherwise returns the merged table, never shorter than the diagnosis table |
| Join.MergeKeepsEveryDiagnosis | data_processor.py:207-213 | every diagnosis row appears, matched or unmatched |
| Join.MergeRowKeepsDiagnosis | data_processor.py:208-213 | each result row carries the diagnosis cells of its diagnosis row |
| Join.MergeRowUnmatched | data_processor.py:208-213 | an unmatched result row has an identifier no patient has, and is NaN on every patient column |
| Join.MergeRowMatched | data_processor.py:208-213 | a matched result row carries, on every patient column, the cells of its patient row |
| Join.MatchedPairIsSound | data_processor.py:208-213 | the patient row of a matched result row has the same identifier as its diagnosis row |
| Join.MergeMeetsEveryMatch | data_processor.py:208-213 | equal identifiers always meet in the result, and an unknown identifier is kept unmatched |
| Join.MergeRowCountWithUniquePatients | data_processor.py:208-213 | with unique patient identifiers the result has as many rows as the diagnosis table |
| Join.DisjointIdentifiersStillMerge | data_processor.py:215-216 | a non-empty diagnosis table with no known identifier merges without error, and the intended match count is 0 |
| Join.MatchedAsWritten | data_processor.py:220 | the count as written is at most the number of result rows |
| Join.FilledFlags | data_processor.py:220 | one flag per result row: non-null on every `_PATIENT` column |
| Join.MatchedDiagnoses | data_processor.py:219-222 | the intended count is at most the number of diagnosis rows |
| Join.KnownFlags | data_processor.py:219-222 | one flag per diagnosis row: some patient carries its identifier |
| Join.MatchedDiagnosesSpec | data_processor.py:219-222 | the intended count equals the diagnosis rows iff every identifier is known, and is 0 iff none is |
| Join.MatchedAsWrittenWithoutCollisions | data_processor.py:220 | with no shared or `_PATIENT` name, the count as written is every result row |
| Join.MatchCountOvercounts | data_processor.py:219-222 | on one known and one unknown diagnosis, the intended count is 1 and the count as written is 2 |
| Processor.RegistryIdIsNoRoleName | data_processor.py:126-196 | `REGISTRY ID` is not picked by the age, gender, date or diagnosis column choice |
| Processor.RewriteKeepsIds | data_processor.py:97-102 | rewriting one non-key column keeps the identifier column |
| Processor.AgeStepKeepsIds | data_processor.py:100 | the age step keeps the identifier column |
| Processor.GenderStepKeepsIds | data_processor.py:101 | the gender step keeps the identifier column |
| Processor.DateStepKeepsIds | data_processor.py:102 | the date step keeps the identifier column |
| Processor.DiagnosisStepKeepsIds | data_processor.py:119 | the diagnosis step keeps the identifier column |
| Processor.DropNullIds | data_processor.py:94 | `dropna(subset=['REGISTRY ID'])` keeps the names and a rectangular table |
| Processor.IdText | data_processor.py:97 | every identifier becomes text: the text of its value, "nan" for NaN and "NaT" for NaT |
| Processor.CastIds | data_processor.py:97 | the cast keeps names and row count |
| Processor.CastIdsSpec | data_processor.py:94-97 | afterwards the rows are the non-null-identifier rows, in order, their count is input rows minus null identifiers, and each identifier is the text of the original |
| Processor.PatientStage | data_processor.py:88-104 | a successful patient validation yields a rectangular table |
| Processor.DiagnosisStage | data_processor.py:106-121 | a successful diagnosis validation yields a rectangular table |
| Processor.PatientStageSpec | data_processor.py:88-104 | fails iff `REGISTRY ID` is missing, with "Patient data must contain 'REGISTRY ID' column"; otherwise the identifiers are validated as in `CastIdsSpec` |
| Processor.DiagnosisStageSpec | data_processor.py:106-121 | fails iff `REGISTRY ID` is missing, with "Diagnosis data must contain 'REGISTRY ID' column"; otherwise identifiers are validated and names unchanged |
| Processor.ValidatePatientData | data_processor.py:88-104 | the in-place age, gender and date rewrites compute `PatientStage` |
| Processor.ValidateDiagnosisData | data_processor.py:106-121 | the in-place date and diagnosis rewrites compute `DiagnosisStage` |
| Processor.ValidatedIdsAreText | data_processor.py:94-97 | after validation every identifier is non-null text |
| Processor.IntAndFloatIdsDoNotMeet | data_processor.py:93-97 | when every diagnosis identifier is the integer n and every patient identifier is n from a float column (or null), both validations succeed and no diagnosis meets a patient |
| Processor.DiagnosisIdsAreOne | data_processor.py:106-121 | when the only diagnosis identifier is c, every validated identifier is the text of c |
| Processor.PatientIdsAreOne | data_processor.py:88-104 | when the only patient identifier is c, every validated identifier is the text of c |
| Processor.ValidatedIdsAreOne | data_processor.py:94-97 | when every non-null identifier is c, every validated identifier is the text of c |
| Processor.NoCommonId | data_processor.py:208-213 | tables keyed by two different single identifiers have no matched diagnosis |
| Processor.StagesOutputs | data_processor.py:44-52 | whenever the stages succeed, identifiers are text on both sides and the merged table is their left join with at least one row per diagnosis row |
| Processor.RunStages | data_processor.py:44-52 | the clean, validate and merge sequence computes `Stages` |
| Processor.Wrap | data_processor.py:61-62 | a failure keeps failing, its message gains the prefix "Error processing Excel file: " followed by the original message; success passes through |
| Processor.PipelineWhenFound | data_processor.py:26-59 | with both sheets found the pipeline is the wrapped stages on them |
| Processor.PipelineErrorPrefix | data_processor.py:61-62 | every failure of the pipeline starts with "Error processing Excel file: " |
| Processor.MissingPatientSheetFailsFirst | data_processor.py:33-34 | without a patient sheet the pipeline fails on that, whatever the other sheets |
| Processor.MissingDiagnosisSheetFails | data_processor.py:36-37 | with a patient sheet but no diagnosis sheet it fails on the diagnosis sheet |
| Processor.PipelineOutputs | data_processor.py:44-59 | a successful run yields good outputs, and with unique patient identifiers the merged table has as many rows as the diagnosis table |
| Processor.ProcessWorkbook | data_processor.py:24-62 | the sheet lookup, reads and stages compute `Pipeline` |
| Processor.Pipeline | data_processor.py:14-62 | the patient sheet lookup fails first, then the diagnosis sheet lookup, each with the prefixed message; otherwise the wrapped `Stages` on the two sheets (characterised by `PipelineWhenFound`, `PipelineErrorPrefix` and `PipelineOutputs`) |
| Processor.Stages | data_processor.py:43-52 | clean, validate patients, validate diagnoses, merge; the first failure is the result, otherwise the three tables (characterised by `StagesOutputs`) |
| Processor.ReadSheet | data_processor.py:40-41 | reading a sheet by name returns the table of the first sheet of that name |
| Processor.NUnique | data_processor.py:235 | `nunique()` is at most the length; it equals the length iff the identifiers are distinct and non-null, is 0 iff all are null, and without nulls it is the length less the duplicated entries |
| Processor.DataProcessor.constructor | data_processor.py:9-12 | all three fields start unset |
| Processor.DataProcessor.ProcessExcelFile | data_processor.py:14-62 | the result is `Pipeline`; on success the three fields hold its tables, on failure all three are unchanged |
| Processor.DataProcessor.Store | data_processor.py:55-57 | the three fields are set together to the tables of one successful run |
| Processor.DataProcessor.GetDataSummary | data_processor.py:229-242 | empty iff nothing has been merged; otherwise the patients are `nunique()` of the patient identifiers, which with the duplicated identifiers make up the patient rows, the diagnoses are the diagnosis rows, the merged records are at least the diagnoses and at least 1, and the columns are the merged names |
| Utils.DuplicateWarning | utils.py:42 | the warning starts with "Found " and ends with the fixed explanation |
| Utils.DuplicateWarningCount | utils.py:42 | the duplicate count can be read back from the warning |
| Utils.TotalNullsBound | utils.py:47 | there are at most as many nulls as cells |
| Utils.TotalNulls | utils.py:47 | `df.isnull().sum().sum()`: the null cells of every column, added up |
| Utils.ValidateData | utils.py:6-53 | empty frame: invalid, one error "DataFrame is empty", no warnings, no info; otherwise valid iff `REGISTRY ID` is present, the one error names the missing column, a warning with the count iff an identifier repeats, and info holds rows, columns, nulls and repeated rows |
| Utils.InfoBounds | utils.py:45-48 | the nulls fit the cells, and the repeated rows are fewer than the rows |
| Utils.FormatNumber | utils.py:55-72 | plain iff below 1000; otherwise B from 1e9, M from 1e6, K from 1e3, with a quotient of at least 1 (below 1000 for K and M) |
| Utils.FormatNumberRoundTrip | utils.py:65-72 | the plain text reads back as the number, and quotient times scale is the number |
| Utils.CleanText | utils.py:74-93 | NaN iff `str(value)` is one of the five tokens before stripping; otherwise the stripped, upper-cased text |
| Utils.CleanTextColumn | utils.py:74-93 | one cleaned cell per input cell |
| Utils.NullStaysNull | utils.py:85-88 | NaN prints as "nan" and stays NaN |
| Utils.NatBecomesText | utils.py:85-91 | NaT prints as "NaT", which is no token, and becomes the text "NAT" |
| Utils.PaddedTokenIsKept | utils.py:88-91 | a token padded with spaces is not nulled; it becomes the upper-cased token |
| Utils.PaddedNullIsKept | utils.py:88-91 | " null " becomes "NULL" |
| Utils.CleanTextIsStable | utils.py:85-91 | cleaning a cleaned value other than "NULL" and "" changes nothing |
| Utils.UpperIsNoLowerToken | utils.py:88 | the only tokens an upper-case text can be are "NULL" and "" |
| Utils.CleanTextTwiceNullsPaddedNull | utils.py:85-91 | cleaning twice turns " null " into null, so cleaning is not idempotent |
| Utils.FirstShape | utils.py:141-145 | the first matching shape, and none iff no shape matches |
| Utils.MatchesShape | utils.py:135-142 | `re.match` of one pattern: the string starts with the pattern, each `\d` matching a digit and every other character itself |
| Utils.IsDateLike | utils.py:124-145 | some pattern matches the stripped value; characterised by `Utils.IsDateLikeSpec` |
| Utils.IsDateLikeSpec | utils.py:124-145 | date-like iff the stripped value starts with one of the four shapes |
| Utils.ShapeIgnoresTail | utils.py:142 | a shape matching a string matches any extension of it |
| Utils.DateWithTimeIsDateLike | utils.py:135-142 | "2024-01-15 10:30" is date-like |
| Utils.DottedDateIsNotDateLike | utils.py:134-145 | a value whose stripped text has a dot third, such as "15.01.2024", is not date-like |
| Utils.NoShapeAtDot | utils.py:134-139 | no shape has a dot third |
| Utils.Truncate | utils.py:198 | `int(x)` rounds toward zero |
| Utils.AgeBucket | utils.py:199-218 | the comparison chain on the truncated age; characterised by `Utils.AgeBucketClosedForm` |
| Utils.CategorizeAge | utils.py:195-218 | "Unknown" for a missing age, else the bucket of its truncation toward zero |
| Utils.AgeBucketClosedForm | utils.py:199-218 | a ≤ 10 gives "1-10", 10(k−1) < a ≤ 10k gives the k-th label for k = 2..9, and a > 90 gives "90+" |
| Utils.CategorizeAgeLabels | utils.py:195-218 | every age gets one of the eleven labels |
| Utils.FractionalAgeTruncates | utils.py:198-200 | 10.7 and −3.5 both fall in "1-10" |
| Utils.CalculateAgeGroups | utils.py:220 | one label per age, each its `categorize_age` |
| Utils.NonNullValues | utils.py:114 | the non-null values, no more of them than cells, each from the column |
| Utils.Sample | utils.py:114 | the first ten non-null values, or all of them when fewer |
| Utils.DateLikeCount | utils.py:115-118 | the count is at most the sample size |
| Utils.DateFlags | utils.py:108-120 | one flag per column: its name has a keyword, or it is an object column whose sample is at least half date-like |
| Utils.NamesAt | utils.py:111-120 | the names at the chosen positions, in order |
| Utils.DateColumns | utils.py:95-122 | the names of the flagged columns, in order; characterised by `Utils.DateColumnsSpec` |
| Utils.DetectDateColumns | utils.py:95-122 | the loop returns `DateColumns` |
| Utils.CountDateLike | utils.py:115-118 | the counting loop returns the number of date-like string values of the sample |
| Utils.DateColumnsSpec | utils.py:95-122 | no more names than columns, every reported column's name is listed, and every listed name is that of a reported column |
| Utils.BirthNamesSuggestDates | utils.py:105 | "DOB" and "Birth Year" count as date names |
| Utils.AllNullObjectColumnIsReported | utils.py:112-120 | an object column with no non-null value is reported |
| Utils.AllNullHasNoValues | utils.py:114 | an all-null column has no non-null values |
| Utils.ApplyMapping | utils.py:179-181 | one mapping keeps the number of names |
| Utils.ApplyMappings | utils.py:179-181 | the mappings keep the number of names |
| Utils.CanonicalNames | utils.py:161 | each name becomes `str(col).strip().upper()` |
| Utils.Standardized | utils.py:147-183 | the table with cleaned names and the eleven mappings applied in order, cells unchanged |
| Utils.StandardizeColumnNames | utils.py:147-183 | a fresh frame holding `Standardized` of the input; the input frame is not in the method's frame of change, so it is untouched |
| Utils.ApplyMappingsStep | utils.py:179-181 | the loop applies the mappings one more at a time |
| Utils.RenameKeepsDistinct | utils.py:180-181 | a rename onto an absent name keeps names distinct |
| Utils.ApplyMappingsKeepsDistinct | utils.py:179-181 | the mappings keep distinct names distinct |
| Utils.StandardizedKeepsDistinct | utils.py:158-183 | standardising creates no repeated name that cleaning the names did not |
| Utils.ApplyMappingsKeepsCanonical | utils.py:164-181 | every target is canonical, so names stay trimmed and upper-case |
| Utils.StandardizedNamesAreCanonical | utils.py:158-183 | every standardised name is trimmed and upper-case |
| Utils.MappingsKeepName | utils.py:179-181 | a name no later mapping renames from stays present |
| Utils.MappingsKeepAbsent | utils.py:179-181 | a name no later mapping renames to stays absent |
| Utils.IdAliasesStep | utils.py:164-181 | after the first k ≤ 4 mappings, `REGISTRY ID` is present or nothing has changed and none of those aliases was present |
| Utils.AliasGivesRegistryId | utils.py:164-181 | with `REGISTRY ID` or one of its four aliases present, the result has `REGISTRY ID` |
| Utils.FirstTwoAliases | utils.py:165-166 | with both PATIENT_ID and PATIENTID, the first mapping renames PATIENT_ID and PATIENTID survives the second |
| Utils.LaterSourcesAreNotRegistryId | utils.py:164-176 | no later mapping renames from `REGISTRY ID` or PATIENTID, or to PATIENT_ID |
| Utils.FirstAliasWins | utils.py:164-181 | with both PATIENT_ID and PATIENTID present, only PATIENT_ID is renamed: the result has `REGISTRY ID` and PATIENTID, and no PATIENT_ID |

## Left out

- Workbook I/O (`pd.ExcelFile`, `pd.read_excel`, data_processor.py:26-27, 40-41): the workbook is a sequence of named tables, and reading a sheet returns its table.
- `st.info` messages (data_processor.py:147, 150, 176, 180, 222): these are UI side effects. The match count is modelled as the values `Join.MatchedAsWritten` and `Join.MatchedDiagnoses`.
- `get_column_info`, `get_summary_statistics`, `export_to_excel`, visualizations.py and app.py are not part of this model: they are dtype introspection, statistics over floats, file output and UI.
- Pandas and Python internals are parameters in `Frames.Env`: `str()` of a non-whole float or a timestamp, `pd.to_numeric`, `pd.to_datetime`, and whether `to_datetime` raises on a column. The parsers and the timestamp rendering are per value, so two behaviours that depend on the whole column are not expressed: `pd.to_datetime` infers one format from the first value, and `astype(str)` of a datetime column drops the time when every time is midnight. No lemma relies on either.
- Processor.DataProcessor.GetDataSummary: the `data_types` entry (dtype introspection) is not modelled.
- Utils.ValidateData: the `column_types` entry of `info` (utils.py:51) is not modelled, for the same reason.
- Utils.FormatNumber: it returns the suffix and the exact quotient instead of the text; the one-decimal rendering `:.1f` of a float is not modelled.
- Utils.DetectDateColumns: whether a column has dtype `object` is pandas metadata, given as a flag per column.
- Utils.DottedDateIsNotDateLike: stated for every value whose stripped text has a dot in third place, not for one literal.
- Frames.ToNumeric: every timestamp is taken to come from a `datetime64` column and is read as its nanoseconds; a timestamp inside an `object` column, which `pd.to_numeric(errors='coerce')` makes NaN, is not distinguished.
- Utils.CleanTextColumn: when every value of an object column is a null token, pandas 2.x down-casts the column to float64 in `replace`, and `.str.strip()` then raises; the model returns an all-NaN column instead.
- Utils.CleanText: `astype(str)` prints NaN and `None` alike as "nan" here; Python prints `None` as "None".
- Text.Strip: white space and case mapping are ASCII only; Python's `strip`, `upper` and `lower` are Unicode-aware.
- Utils.MatchesShape: `\d` matches the ASCII digits only (Text.IsDigit); Python's `re` also matches other Unicode decimal digits.
- Frames.IndexOf: with repeated column labels, `df[name]` selects the first column of that name; pandas would return a frame of all of them.
- Normalizers.AgeCell: the `int64`/`float64` dtype is tracked per cell; pandas makes the whole column `float64` once any of its values is set to NaN, and `pd.to_numeric` of all-integer text gives `int64`, not float.
- Processor.IdText: whether an identifier is an `int64` or a `float64` cell is part of the input; that `read_excel` makes a whole integer column `float64` when one cell is blank is not derived by the model (Processor.IntAndFloatIdsDoNotMeet takes it as given).
- Join.RightCells: an unmatched row is NaN in every patient column; pandas gives NaT in a datetime column and turns an integer column with a missing row into float.
- Join.MergeTable: pandas raises when a suffixed name would itself collide with an existing name; that error is not modelled.
- Cleaning.CleanDataframe: column labels are strings; `str(col)` of a non-string label is not modelled.
- Concurrency and exceptions other than those the pipeline raises itself do not arise in the model.

## Findings

| source | as written | input that shows it | evidently intended | confidence | as-written member | corrected member |
|---|---|---|---|---|---|---|
| data_processor.py:219-222 | the matched count is the number of merged rows non-null on every column whose name ends in `_PATIENT`; such columns exist only for names both tables share, so with no shared non-key name every row counts as matched | diagnoses A1/FLU and B2/COLD, one patient A1 aged 34, male: the count as written is 2 of 2 | the number of diagnosis rows whose identifier some patient carries: 1 of 2 | not executed | Join.MatchedAsWritten, Join.MatchCountOvercounts | Join.MatchedDiagnoses, Join.MatchedDiagnosesSpec |
