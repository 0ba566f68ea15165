# Spreadsheet consolidation core, modelled in Dafny

A Dafny model of the deterministic core of a desktop tool that finds Excel
workbooks in a folder tree, checks and analyses them, and keeps backups of the
consolidated master workbook. Each module follows one source file:

- `Analyzer` (src/spreadsheet/analyzer.py) models the structural analyser over a sheet given as a grid of cells. It covers header detection over the first five rows, column type inference from up to ten samples, the styles map, formula extraction, the visual-element catalogue, the data range, the complexity score, and the workbook flags and global styles.
- `Validation` (src/core/validation.py) models the issue accumulator `ValidationResult` and the control flow of `ColumnSchema.validate_value`. It also covers the Brazilian CPF and CNPJ modulo-11 check digits.
- `Cache` (src/core/cache.py) models the LRU cache as a pure state machine over the ordered entry list, with TTL expiry, hit and miss counters, and evictions.
- `Monitoring` (src/core/monitoring.py) models the snapshot diff `compare_with` and the `files_monitored` bookkeeping.
- `Scanner` (src/spreadsheet/scanner.py) models the Excel-name tests, the hidden and temporary file rules of `_analyze_file`, `filter_spreadsheets`, and the path de-duplication of `get_all_spreadsheets`.
- `Validator` (src/spreadsheet/validator.py) models the size thresholds, the early-exit order of `validate_spreadsheet`, the `.xlsx` emptiness rule, the status precedence of the pandas path, and `validate_multiple_files`.
- `Backups` (src/core/backup.py) models backup ids, the `to_dict`/`from_dict` JSON round trip, the newest-first listing, retention by count, the statistics, the integrity check, and the active-backup map.
- `SyncBackups` (src/sync/backup_manager.py) models the backup file name and the date read back from it, the newest-first listing, the age-based clean-up, the statistics, and the choice of the master file.
- The supporting modules model the Python behaviour the code relies on:
  - `Text` covers `str` methods and `pathlib` names.
  - `CellRefs` covers openpyxl column letters and coordinates.
  - `DateTimes` covers `datetime` ordering, `isoformat`, `strftime` and `strptime`.
  - `Seqs` covers order-preserving filters and the descending sort.
  - `Wrappers` defines `Option` and `Result`.

The file system, openpyxl, pandas, the clock and the hashing routines become
inputs. Examples are a directory listing, a `stat` result, a
`Result<seq<Sheet>>` for `load_workbook`, a `FileView` for what the validator's
libraries report, and `now` as an instant or `DateTime`.

## Model

| member | source | states |
|---|---|---|
| Analyzer.RowTokens | src/spreadsheet/analyzer.py:256-261 | one token per cell, in column order: a non-blank string is stripped, any other value keeps its `str()` rendering (so a whitespace-only string stays unstripped and non-empty), an empty cell gives "" |
| Analyzer.DetectHeaders | src/spreadsheet/analyzer.py:235-275 | the header row, when found, lies in 1..5 and within max_row, qualifies, and every earlier row fails to qualify; the headers are its non-empty tokens in column order; when no row of 1..min(5, max_row) qualifies there are no headers |
| Analyzer.ScannedRows | src/spreadsheet/analyzer.py:248 | rows the scan passed over, counted in sheet rows from 1, all fail the test |
| Analyzer.HeadersNonEmpty | src/spreadsheet/analyzer.py:271 | no detected header is the empty string |
| Analyzer.BlankStringIsHeader | src/spreadsheet/analyzer.py:257-261 | a whitespace-only string cell is kept, unstripped, among a row's header values |
| Analyzer.NumbersOnlyRowDoesNotQualify | src/spreadsheet/analyzer.py:256-270 | a row of numbers and empty cells never qualifies as a header row, since it has no string cell |
| Analyzer.TextRowQualifies | src/spreadsheet/analyzer.py:256-272 | a row with a non-blank string cell and no value that reads as a number qualifies as a header row |
| Analyzer.Category | src/spreadsheet/analyzer.py:492-500 | the bucket a value is counted in is never boolean, and a boolean value is counted as a number (bool is an int in Python) |
| Analyzer.TallyOf | src/spreadsheet/analyzer.py:485-500 | the number, date and text counts add up to the number of values and the boolean count is 0 |
| Analyzer.TallyCounts | src/spreadsheet/analyzer.py:485-500 | each tally equals the number of values whose category is that bucket |
| Analyzer.InferDataType | src/spreadsheet/analyzer.py:472-503 | "empty" exactly for no values, and never "boolean" |
| Analyzer.InferredIsMajority | src/spreadsheet/analyzer.py:485-503 | the inferred type has a count no other category exceeds, and every category earlier in the dict order has a strictly smaller count, so ties go number > date > text > boolean |
| Analyzer.ColumnSamples | src/spreadsheet/analyzer.py:455-464 | the samples are exactly the non-empty values of the column over the row range, in row order |
| Analyzer.SampleCount | src/spreadsheet/analyzer.py:453 | at most 10 rows are sampled, and they all lie within max_row |
| Analyzer.SamplesBound | src/spreadsheet/analyzer.py:453-464 | a column yields at most 10 samples, and none when the header is the last row |
| Analyzer.ColumnTypes | src/spreadsheet/analyzer.py:455-468 | one entry per column, each the type of that column's samples (or none) |
| Analyzer.DetectDataTypes | src/spreadsheet/analyzer.py:437-470 | no header row gives {}; otherwise a column's letter is a key exactly when the column has a non-null sample, its value is the type inferred from those samples, and every key is some column's letter |
| Analyzer.LettersDistinct | src/spreadsheet/analyzer.py:456 | different column numbers get different letters, so no column overwrites another's type |
| Analyzer.TypesByLetter | src/spreadsheet/analyzer.py:455-468 | the per-column types indexed by position give the letter-keyed map above |
| Analyzer.DataTypesAreCategories | src/spreadsheet/analyzer.py:472-503 | every inferred column type is number, date or text |
| Analyzer.Positions | src/spreadsheet/analyzer.py:286-287 | the cell positions visited are exactly the cells of the sheet, in row-major order |
| Analyzer.RowPositions | src/spreadsheet/analyzer.py:287 | one row's positions are exactly its columns from the start column on, left to right |
| Analyzer.GridPositions | src/spreadsheet/analyzer.py:286-287 | the positions of rows r..max_row are exactly those cells, in row-major order |
| Analyzer.FormulaInfo | src/spreadsheet/analyzer.py:290-300 | the record built for a formula cell carries that cell's address |
| Analyzer.FormulaPositions | src/spreadsheet/analyzer.py:286-300 | the listed positions are exactly the formula cells, in row-major order |
| Analyzer.ExtractFormulas | src/spreadsheet/analyzer.py:277-302 | every record describes a formula cell (type FORMULA, formula = the cell's text), every formula cell has its record, and records follow row-major order |
| Analyzer.FormulasListed | src/spreadsheet/analyzer.py:286-300 | records built from the formula positions inherit the three properties above |
| Analyzer.StylesOver | src/spreadsheet/analyzer.py:313-322 | over any list of cells, every cell with a value or a custom style is keyed by its coordinate with its own style, and every key is such a cell's coordinate |
| Analyzer.StyleAssigned | src/spreadsheet/analyzer.py:316-320 | visiting one more cell records it when it holds a value or a custom style |
| Analyzer.StyleKept | src/spreadsheet/analyzer.py:316-320 | visiting one more cell keeps every earlier cell's entry, because coordinates of different cells differ |
| Analyzer.StyleKeyFrom | src/spreadsheet/analyzer.py:316-320 | visiting one more cell adds no key that is not some visited styled cell's coordinate |
| Analyzer.MapCellStyles | src/spreadsheet/analyzer.py:304-322 | the styles map's keys are exactly the coordinates of cells with a value or a custom style (bold, italic, size not 11, a fill other than '00000000', any border side, any alignment), each mapped to its style |
| Analyzer.DefaultStyleIsPlain | src/spreadsheet/analyzer.py:363-382 | the default cell style is not custom, and bold, italic, a size other than 11, a fill other than '00000000', a border or a non-empty alignment each make it custom |
| Analyzer.PlainEmptyCellUnstyled | src/spreadsheet/analyzer.py:316-320 | an empty cell in the default style is not in the styles map |
| Analyzer.LinkedCells | src/spreadsheet/analyzer.py:427-433 | the positions listed are exactly the cells with a hyperlink, in row-major order |
| Analyzer.CatalogVisualElements | src/spreadsheet/analyzer.py:384-435 | the six keys hold the sheet's charts, images, conditional formats and validations as given, no shapes, and one hyperlink record per linked cell; the element count is the sum of those list sizes |
| Analyzer.DataRange | src/spreadsheet/analyzer.py:218-220 | the data range splits at ":" into the coordinate of column A in the row after the header and the coordinate of the last row and column |
| Analyzer.AnalyzeSheet | src/spreadsheet/analyzer.py:196-233 | name and dimensions are the sheet's; the headers and header row are those detected; the data range is present exactly when a header row is, and is the range from the row below it; formulas, merged ranges, styles map, visual elements and column types are those of the sheet |
| Analyzer.Score | src/spreadsheet/analyzer.py:514-536 | the capped sum of the five parts never exceeds 100 |
| Analyzer.ComplexityScore | src/spreadsheet/analyzer.py:505-536 | the workbook score lies in 0..100 |
| Analyzer.ScoreMonotone | src/spreadsheet/analyzer.py:514-536 | raising any of the sheet, formula, merge, visual or style counts never lowers the score |
| Analyzer.TotalsMonotone | src/spreadsheet/analyzer.py:517-530 | sheet by sheet larger analyses give totals no smaller in each of the four sums |
| Analyzer.ComplexityMonotone | src/spreadsheet/analyzer.py:505-536 | a workbook whose sheets are each no busier than another's scores no higher |
| Analyzer.ComplexityGrowsWithSheets | src/spreadsheet/analyzer.py:505-536 | adding a sheet never lowers the score |
| Analyzer.RaiseFlags | src/spreadsheet/analyzer.py:174-177 | has_formulas (has_merged_cells) holds iff some sheet's formula (merged-range) list is non-empty |
| Analyzer.AnalyzeSheets | src/spreadsheet/analyzer.py:169-172 | one analysis per sheet, in workbook order |
| Analyzer.Summarize | src/spreadsheet/analyzer.py:169-190 | the flags hold iff some sheet has formulas or merged ranges, the score equals the workbook complexity score and is at most 100, global styles are the first sheet's styles map or {} when there is no sheet, and the timestamp is the one given |
| Analyzer.AnalyzeSpreadsheet | src/spreadsheet/analyzer.py:155-194 | a load failure becomes the "Falha na análise" error; otherwise there is one sheet analysis per sheet |
| Analyzer.AnalysesFollowSheets | src/spreadsheet/analyzer.py:169-183 | the i-th analysis is the analysis of the i-th sheet and the global styles are the first sheet's styles map |
| Validation.AddIssue | src/core/validation.py:79-90 | exactly one issue is appended, only the counter of its severity grows (none for INFO), and the result becomes invalid on ERROR or CRITICAL and is never made valid again |
| Validation.IssuesBySeverity | src/core/validation.py:92-94 | the issues returned are exactly those of the given severity |
| Validation.AddIssueKeepsTally | src/core/validation.py:79-94 | when each counter equals the number of issues of that severity, adding an issue keeps it so |
| Validation.AddIssuesFromEmpty | src/core/validation.py:69-94 | from an empty result, the issues are those added, each counter is the size of `get_issues_by_severity` for it, and the result is valid iff it started valid and no ERROR or CRITICAL issue was added |
| Validation.InvalidStaysInvalid | src/core/validation.py:87-88 | no sequence of issues makes an invalid result valid |
| Validation.AddIssues | src/core/validation.py:79-90 | adding a list of issues appends exactly those issues, and the result is valid iff it was valid and none of them is ERROR or CRITICAL |
| Validation.RangeIssues | src/core/validation.py:198-220 | every range issue is an ERROR of rule RANGE_CHECK for the column and row, one for a number below the minimum plus one for a number above the maximum |
| Validation.TextIssues | src/core/validation.py:222-258 | every length or pattern issue is an ERROR of rule FORMAT_CHECK for the column and row, one each for text shorter than min_length, longer than max_length, and not matching a non-empty pattern |
| Validation.AllowedIssues | src/core/validation.py:260-270 | every allowed-values issue is an ERROR of rule REFERENCE_CHECK, and there is one exactly when a non-empty allowed list does not hold the value |
| Validation.CustomIssues | src/core/validation.py:272-291 | every custom-validator issue is an ERROR of rule CUSTOM |
| Validation.CustomIssuesCount | src/core/validation.py:272-291 | one CUSTOM issue per validator that returned false or raised, and no REQUIRED or TYPE_CHECK issue |
| Validation.ValidateValue | src/core/validation.py:130-293 | a null value (None, NaN or blank string) gives exactly one REQUIRED error when required, none when nullable, else one TYPE_CHECK error; a failed type check or conversion gives exactly one TYPE_CHECK error; otherwise no REQUIRED or TYPE_CHECK issue, one RANGE_CHECK issue per bound crossed, one FORMAT_CHECK issue per length or pattern check failed, one REFERENCE_CHECK issue for a value outside the allowed list, and one CUSTOM issue per failed validator; every issue is an ERROR for the column and row |
| Validation.ValueIssueRules | src/core/validation.py:198-291 | the issues of the value checks carry the column and row, include no REQUIRED or TYPE_CHECK issue, and count per rule the range, text, allowed-value and custom issues |
| Validation.OrderedBoundsOneRangeIssue | src/core/validation.py:198-220 | with min at most max, a value trips at most one range check |
| Validation.CrossedBoundsTwoRangeIssues | src/core/validation.py:198-220 | the two range checks are independent: when the maximum is below the minimum, every number strictly between them trips both and gives two range errors |
| Validation.DecimalDigits | src/core/validation.py:625 | the kept characters are exactly the decimal digits of the input |
| Validation.Mod11Digit | src/core/validation.py:631-634 | the check digit lies in 0..9 and completes the weighted sum to a multiple of 11, except for remainder 1, where it is 0 |
| Validation.CountDown | src/core/validation.py:636-637 | the weight list for 10..2 and 11..2 counts down from the top weight |
| Validation.CpfIgnoresNonDigits | src/core/validation.py:625 | CPF and CNPJ verdicts depend only on the decimal digits of the input |
| Validation.CountDownSum | src/core/validation.py:636-637 | the sum with descending weights equals the positional sum each digit times its weight |
| Validation.CpfCheck | src/core/validation.py:631-637 | the two check digits computed from nine digits are ASCII digits |
| Validation.CpfCompletion | src/core/validation.py:622-639 | an 11-digit string is a valid CPF iff it is not one repeated digit and its last two digits are the check digits of its first nine |
| Validation.RepeatedCpfRejected | src/core/validation.py:627 | a repeated-digit CPF such as "11111111111" is rejected |
| Validation.ZeroCnpjAccepted | src/core/validation.py:641-661 | "00000000000000" is accepted as a CNPJ: there is no repeated-digit rule |
| Validation.IsValidCpf | src/core/validation.py:621-639 | an accepted CPF has exactly 11 decimal digits, not all the same |
| Validation.IsValidCnpj | src/core/validation.py:641-661 | an accepted CNPJ has exactly 14 decimal digits |
| Validation.CnpjWeightsCycle | src/core/validation.py:655-656 | the standard weights: 2 for the rightmost digit, each weight to its left one more, starting over at 2 after 9 |
| Validation.CnpjWeightLists | src/core/validation.py:655-656 | the two weight lists of `is_valid_cnpj` are the standard weights for 12 and 13 digits |
| Validation.CnpjCompletion | src/core/validation.py:641-661 | a 14-digit string is a valid CNPJ iff its last two digits are the modulo-11 check digits of its first twelve under the cyclic weights |
| Cache.ExpiryIsPermanent | src/core/cache.py:40-45 | an expired entry stays expired at every later instant |
| Cache.TouchKeepsExpiry | src/core/cache.py:41-55 | touching an entry does not change whether it is expired: the TTL counts from creation |
| Cache.ExpiryBoundary | src/core/cache.py:41-45 | an entry with a TTL is still alive at exactly creation plus the TTL and expired one microsecond later |
| Cache.Touch | src/core/cache.py:52-55 | touching bumps access_count by one and sets last_accessed, nothing else |
| Cache.Without | src/core/cache.py:184-190 | removing a key keeps every other entry in order, drops only that key, and shortens the list by one exactly when it was present |
| Cache.Get | src/core/cache.py:89-125 | a missing key returns the default and counts a miss; an expired entry is removed, counts a miss and returns the default; a live entry moves to the most recently used end, is touched, counts a hit and returns its value; keys stay unique |
| Cache.EffectiveTtl | src/core/cache.py:138 | a TTL of None or 0 falls back to the default TTL |
| Cache.EvictLru | src/core/cache.py:245-251 | eviction drops the least recently used entry and counts it; an empty cache is unchanged |
| Cache.EvictWhileOver | src/core/cache.py:163-164 | evictions leave the most recent min(size, max_size) entries and count each removed one |
| Cache.Set | src/core/cache.py:127-173 | the new entry replaces any old one at the most recently used end, then the oldest entries are evicted until at most max_size remain, each counted; keys stay unique and the counters other than evictions are unchanged |
| Cache.Delete | src/core/cache.py:175-190 | returns true iff the key was present and removes only that key |
| Cache.Clear | src/core/cache.py:192-196 | the cache is left empty with its statistics kept |
| Cache.CleanupExpired | src/core/cache.py:200-219 | exactly the expired entries are removed, the rest keep their order, and the count returned is the number removed |
| Cache.CleanupIdempotent | src/core/cache.py:200-219 | a second clean-up at the same instant removes nothing |
| Cache.GetAfterSet | src/core/cache.py:127-173 | a get after a set of the same key, before the entry expires, returns the value set |
| Cache.FindUnique | src/core/cache.py:89-125 | with unique keys, the entry found for a key is the one holding it |
| Cache.DeleteThenMiss | src/core/cache.py:175-190 | after a delete, a get of that key misses |
| Cache.SetsRespectBound | src/core/cache.py:157-165 | any run of sets keeps at most max_size entries with unique keys |
| Monitoring.CompareWith | src/core/monitoring.py:145-176 | at most one change: CREATED iff only the new snapshot exists, DELETED iff only the old one does; with both present, CONTENT_CHANGED iff both hashes are non-empty and differ, otherwise METADATA_CHANGED iff size, mtime or permissions differ; nothing when neither exists |
| Monitoring.SelfCompareIsEmpty | src/core/monitoring.py:145-176 | a snapshot compared with itself reports no change |
| Monitoring.EmptyHashIsNoHash | src/core/monitoring.py:142-143 | a failed hash ("") compares exactly like a missing hash |
| Monitoring.CompareSwapped | src/core/monitoring.py:154-176 | comparing in the other direction swaps CREATED and DELETED and keeps the rest |
| Monitoring.NewMonitor | src/core/monitoring.py:227-236 | a new monitor watches nothing and its count is consistent |
| Monitoring.AddFile | src/core/monitoring.py:239-249 | the path is watched with the new snapshot, other paths keep theirs, and files_monitored equals the number of watched files |
| Monitoring.RemoveFile | src/core/monitoring.py:284-290 | removing an unwatched path changes nothing; otherwise only that path goes and the count drops by one |
| Monitoring.BookkeepingHolds | src/core/monitoring.py:239-290 | any sequence of additions and removals keeps files_monitored equal to the number of watched files |
| Scanner.IsExcelFileIffExtension | src/spreadsheet/scanner.py:152-161 | a path is an Excel file iff its base name ends, ignoring case, in ".xlsx" or ".xls" after a non-empty stem; a name without a suffix is not one |
| Scanner.SuffixIsExtension | src/spreadsheet/scanner.py:161 | a supported lower-cased suffix means the name ends in that extension |
| Scanner.ExtensionIsSuffix | src/spreadsheet/scanner.py:161 | a name ending in a dotted extension after a non-empty stem has that extension as its suffix |
| Scanner.LowerNoDot | src/spreadsheet/scanner.py:161 | lower-casing does not create dots |
| Scanner.LowerIdempotent | src/spreadsheet/scanner.py:69-72 | lower-casing twice is lower-casing once |
| Scanner.IsExcelIgnoresCase | src/spreadsheet/scanner.py:69-72 | `is_excel` gives the same answer for an extension and its lower-cased form |
| Scanner.AnalyzeFile | src/spreadsheet/scanner.py:252-292 | names starting with "." or "~", or whose stem ends with "~", give nothing; otherwise an Excel suffix and a readable stat give a valid info whose extension is lower-cased, whose size and modified date are the stat's and which has no error message; any info returned is Excel |
| Scanner.FilterSpreadsheets | src/spreadsheet/scanner.py:192-201 | the kept paths are exactly the input paths with a supported suffix |
| Scanner.FilterSpreadsheetsOrder | src/spreadsheet/scanner.py:192-201 | filtering keeps input order (it distributes over concatenation) and filtering twice changes nothing |
| Scanner.ScanFound | src/spreadsheet/scanner.py:217-224 | one info per accepted walk entry, in walk order, each the info `_analyze_file` builds for it; rejected entries are skipped |
| Scanner.ScannedAreExcel | src/spreadsheet/scanner.py:217-224 | every info returned is a valid Excel file whose path the walk found |
| Scanner.FirstOccurrencesPaths | src/spreadsheet/scanner.py:241-250 | de-duplication keeps only input entries and loses no path |
| Scanner.FirstOccurrencesUnique | src/spreadsheet/scanner.py:241-250 | the de-duplicated list has no two entries with the same path |
| Scanner.FirstOccurrencesFirst | src/spreadsheet/scanner.py:241-250 | each kept entry is the first input entry with its path |
| Scanner.FirstOccurrencesSpec | src/spreadsheet/scanner.py:241-250 | the three properties above together |
| Scanner.Deduplicate | src/spreadsheet/scanner.py:241-250 | the `seen_paths` loop returns the first occurrence of each path, without duplicate paths and with every path of the input |
| Scanner.GetAllSpreadsheets | src/spreadsheet/scanner.py:226-250 | the combined scan is the first occurrence of each path in the scans concatenated in order; so it holds no duplicate path, every path found by some scan, and only entries found |
| Validator.CheckFileSize | src/spreadsheet/validator.py:636-664 | at most one message; errors exactly when the size is below 1024 (the empty-file error for 0 bytes, the too-small error for 1..1023), a warning exactly when it exceeds 50 MiB, one error when the size cannot be read |
| Validator.XlsxReport | src/spreadsheet/validator.py:187-258 | size errors give INVALID; a workbook that fails to open gives ERROR; otherwise VALID iff the total of max_row over sheets exceeds the sheet count, with the totals recorded, else INVALID with the headers-only error; the size warning is always kept |
| Validator.ThinIffSingleRows | src/spreadsheet/validator.py:227-234 | with every sheet at least one row high, total rows are at most the sheet count iff every sheet has exactly one row |
| Validator.XlsReport | src/spreadsheet/validator.py:260-321 | INVALID iff there is a size error, VALID iff there is none and the workbook opens, never WARNING |
| Validator.ScanFrames | src/spreadsheet/validator.py:426-454 | data was found iff some sheet reads and is non-empty; there is one error per unreadable sheet; the empty-sheet list names the empty sheets in order; total rows is the sum of the readable sheets' rows and total columns their largest column count |
| Validator.SheetsPartition | src/spreadsheet/validator.py:426-454 | every sheet is unreadable, empty or filled, so the three counts add up to the number of sheets |
| Validator.ScanAccounts | src/spreadsheet/validator.py:426-454 | the errors, the empty-sheet names and the filled sheets together account for every sheet |
| Validator.ColumnsReadIsMax | src/spreadsheet/validator.py:433 | the column total is at least every readable sheet's column count and equals one of them, or is 0 |
| Validator.EmptySheetMessages | src/spreadsheet/validator.py:457-461 | all sheets empty adds one error; some empty adds one warning; none adds nothing |
| Validator.Decide | src/spreadsheet/validator.py:464-472 | ERROR iff there are errors; otherwise INVALID iff there is no data (adding the no-valid-data error), WARNING iff there are warnings, else VALID |
| Validator.PandasReport | src/spreadsheet/validator.py:401-491 | a load failure or a workbook without sheets is an ERROR; otherwise VALID iff there are no warnings, errors or empty sheets and some sheet has data, and data without errors gives VALID or WARNING |
| Validator.PandasReportAsWritten | src/spreadsheet/validator.py:493-505 | as written, the pandas path always ends in ERROR with at least one error; for a loaded workbook with sheets, its errors are those of the decided report followed by the load error for the missing `spreadsheet_info` field |
| Validator.PandasLoggingTurnsValidIntoError | src/spreadsheet/validator.py:593-595 | for one 10-row, 3-column sheet full of data the intended verdict is VALID, while the code as written says ERROR |
| Validator.ValidateSpreadsheet | src/spreadsheet/validator.py:323-398 | missing file gives ERROR, then unsupported extension, 0 bytes and under 1 KiB each give INVALID with exactly one error, then a failed size check gives INVALID, then .xlsx or .xls decide; the pandas path is the as-written one and ends in ERROR |
| Validator.ErrorsIffFailedStatus | src/spreadsheet/validator.py:73-86 | on every path a report has errors exactly when its status is INVALID or ERROR |
| Validator.ValidateFile | src/spreadsheet/validator.py:114-145 | a missing path is an ERROR with one error; an unreadable stat raises; otherwise the result is `validate_spreadsheet` of the file's info |
| Validator.ValidateFileSkipsPandas | src/spreadsheet/validator.py:114-145 | the info `validate_file` builds is Excel exactly when the path has an Excel suffix, so from that entry point the pandas path is never reached |
| Validator.FileResult | src/spreadsheet/validator.py:156-172 | each path's report is for that path and has errors iff it is INVALID or ERROR |
| Validator.ValidateMultipleFiles | src/spreadsheet/validator.py:147-172 | the keys are exactly the input paths, each mapped to its own report; no paths give {} |
| Backups.ParseType | src/core/backup.py:96 | `BackupType(value)` accepts exactly the four enum values and inverts `.value` |
| Backups.ParseStatus | src/core/backup.py:104 | `BackupStatus(value)` accepts exactly the enum values and inverts `.value` |
| Backups.Required | src/core/backup.py:94-99 | a required key yields its string, and fails when missing or not a string |
| Backups.IntOr | src/core/backup.py:100-102 | a missing count falls back to 0 (the default given); a present integer is taken |
| Backups.RealOr | src/core/backup.py:103 | a missing duration falls back to 0.0; a present number is taken |
| Backups.OptionalOf | src/core/backup.py:105-106 | a missing or null optional string is None; a present string is taken |
| Backups.StringsOr | src/core/backup.py:107 | a missing file list is []; a present one is taken |
| Backups.DecodeHead | src/core/backup.py:94-99 | a decoded head has a valid timestamp, the dictionary's id and source, and a backup_path and backup_type read back from string values; without any of the five keys it fails |
| Backups.FromDict | src/core/backup.py:91-109 | a decoded record has a valid timestamp, the dictionary's id, source and backup path; a missing required key fails |
| Backups.HeadRoundTrip | src/core/backup.py:72-99 | decoding the dictionary of a record gives back its id, type, timestamp and paths |
| Backups.DetailsRoundTrip | src/core/backup.py:80-108 | decoding the dictionary gives back the counts, sizes, duration, status, checksum, parent and file list |
| Backups.DictRoundTrip | src/core/backup.py:72-109 | `from_dict(to_dict(m))` is m |
| Backups.KeyNamesDistinct | src/core/backup.py:75-88 | the thirteen dictionary keys are distinct |
| Backups.GenerateBackupId | src/core/backup.py:491-500 | the id is the backup name (when given and non-empty) or the source's file name, then "_", then (years from 1000 on) 15 characters spelling the date and time as YYYYMMDD_HHMMSS |
| Backups.BackupIdsDiffer | src/core/backup.py:494-500 | ids of the same source made in different seconds differ (years from 1000 on) |
| Backups.Loaded | src/core/backup.py:267-281 | every metadata file that loads has a valid timestamp; unreadable files are skipped |
| Backups.ListBackups | src/core/backup.py:258-287 | a permutation of the loaded records (only those of the given source, when one is given) sorted newest first |
| Backups.ListedNewestFirst | src/core/backup.py:285 | no listed backup is older than one listed after it |
| Backups.SliceFrom | src/core/backup.py:549 | Python slicing `s[k:]`, negative k counting from the end |
| Backups.Ids | src/core/backup.py:551-552 | the ids of the records, in order |
| Backups.CleanupOldBackups | src/core/backup.py:541-558 | nothing is deleted when the count is at most max_backups; otherwise exactly the ids after the newest max_backups, in order |
| Backups.CleanupKeepsNewest | src/core/backup.py:546-553 | every deleted backup is no newer than every kept one |
| Backups.GetBackupStats | src/core/backup.py:341-366 | total is the number of backups, the total size is the sum of compressed sizes, `total_files` is the sum of the file counts, the per-type counts add up to the total, and newest/oldest are the first/last entry's timestamp, None for no backups |
| Backups.StatsOf | src/core/backup.py:347-364 | the same statistics, `total_files` included, over a given newest-first list |
| Backups.TypeCountsCover | src/core/backup.py:353-355 | the four per-type counts add up to the number of backups |
| Backups.StatsBoundAll | src/core/backup.py:361-362 | the newest entry is no older and the oldest no newer than any listed backup |
| Backups.VerifyIntegrity | src/core/backup.py:510-520 | no stored checksum (None or "") passes; otherwise it passes iff the recomputed checksum equals it, and fails when it cannot be computed |
| Backups.CreateBackup | src/core/backup.py:148-209 | a missing source fails and registers nothing; otherwise the id is removed from the active map whether the run succeeds or fails, and a failure is reported as "Falha no backup" followed by the error; this is the corrected behaviour of the Findings row |
| Backups.CreateBackupAsWritten | src/core/backup.py:148-209 | as the code stands: the active map is handled as in `create_backup`, it succeeds exactly when the source exists and the run succeeds, and every failure is the TypeError of calling `BackupError` with one argument |
| Backups.BackupErrorNeverBuilt | src/core/backup.py:161 | for a missing source or a failed run the code as written reports the arity TypeError, while the intended behaviour reports a failure with a different message ("Falha no backup: disk full" for a run failing with "disk full") |
| SyncBackups.GenerateBackupFilename | src/sync/backup_manager.py:141-151 | the name ends in "_planilha_consolidada.xlsx" |
| SyncBackups.FilenameParts | src/sync/backup_manager.py:150-151 | a generated name splits on "_" into four parts: the date, the time, "planilha" and "consolidada.xlsx" |
| SyncBackups.DatePart | src/sync/backup_manager.py:275 | a date part exists only when the stem has at least two "_"-separated fields |
| SyncBackups.FileDate | src/sync/backup_manager.py:274-276 | a date read from a name is valid and whole-second |
| SyncBackups.FilenameRoundTrip | src/sync/backup_manager.py:274-276 | reading the date back from a generated name gives its timestamp truncated to seconds (years from 1000 on) |
| SyncBackups.Dated | src/sync/backup_manager.py:271-280 | the entries are exactly the backup names whose date parses, paired with that date |
| SyncBackups.ListBackups | src/sync/backup_manager.py:259-285 | a permutation of the dated backups, newest first, skipping names whose date does not parse |
| SyncBackups.GeneratedIsListed | src/sync/backup_manager.py:271-282 | a generated backup present in the folder is listed with its timestamp |
| SyncBackups.Cutoff | src/sync/backup_manager.py:229 | the cut-off is now minus retention_days days, and there is one exactly when that instant is a representable datetime |
| SyncBackups.CleanupOldBackups | src/sync/backup_manager.py:222-257 | removed are exactly the backup names whose date parses and lies strictly before the cut-off |
| SyncBackups.RecentBackupKept | src/sync/backup_manager.py:241-243 | a backup made no earlier than the cut-off is not removed |
| SyncBackups.CutoffIsDatetimeOrder | src/sync/backup_manager.py:242 | datetime `<` agrees with the order of instants |
| SyncBackups.GetBackupStatistics | src/sync/backup_manager.py:327-355 | no backups give total 0 and null dates; otherwise the result is the empty dict iff some listed file's size cannot be read, and else total is the count, newest and oldest are the first and last listed dates, and the size is the sum over the listed files |
| SyncBackups.SizeSum | src/sync/backup_manager.py:348 | the size sum fails iff some file's size cannot be read, and is at least the first file's size |
| SyncBackups.StatisticsBound | src/sync/backup_manager.py:349-350 | the newest date is no older and the oldest no newer than any listed backup |
| SyncBackups.GetMasterFilePath | src/sync/backup_manager.py:122-139 | the configured file when it is a file; otherwise the first ".xlsx" entry of the listing; None iff there is none |
| DateTimes.BeforeIffInstant | src/sync/backup_manager.py:242 | field-by-field datetime order agrees with the microsecond instant |
| DateTimes.InstantRange | src/sync/backup_manager.py:229 | every valid datetime's instant lies between the instants of datetime.min and datetime.max |
| DateTimes.ParseIso | src/core/backup.py:97 | a parsed `fromisoformat` value is a valid datetime |
| DateTimes.IsoHeadSpells | src/core/backup.py:77 | `isoformat()` starts with the 19-character "YYYY-MM-DDTHH:MM:SS" spelling of the fields |
| DateTimes.IsoFormatShape | src/core/backup.py:77 | `isoformat()` is 19 characters, or 26 with "." and the six microsecond digits when microsecond is non-zero |
| DateTimes.IsoRoundTrip | src/core/backup.py:77-97 | `fromisoformat(d.isoformat())` is d |
| DateTimes.Pad2 | src/sync/backup_manager.py:150 | a two-digit field spells its value |
| DateTimes.ParseStamp | src/sync/backup_manager.py:276 | a value parsed with "%Y-%m-%d_%H-%M-%S" is a valid whole-second datetime |
| DateTimes.FileStampRoundTrip | src/sync/backup_manager.py:274-276 | parsing the formatted stamp gives back the datetime truncated to seconds (years from 1000 on) |
| DateTimes.FileStampSplits | src/sync/backup_manager.py:150 | the file stamp splits at "_" into date and time and each of those at "-" into its three fields |
| DateTimes.CompactStampInjective | src/core/backup.py:499 | equal "%Y%m%d_%H%M%S" stamps mean equal datetimes up to the second (years from 1000 on) |
| DateTimes.CompactStampSpells | src/core/backup.py:499 | "%Y%m%d_%H%M%S" is 15 characters, digits around "_" at position 8, whose six fields read back as year, month, day, hour, minute and second (years from 1000 on) |
| CellRefs.ColumnLetter | src/spreadsheet/analyzer.py:456 | `get_column_letter(n)` is a non-empty run of capitals whose bijective base-26 value is n |
| CellRefs.ColumnLetterOnto | src/spreadsheet/analyzer.py:456 | every one to three letter run is the letter of exactly its own column |
| CellRefs.CoordinateInjective | src/spreadsheet/analyzer.py:320 | different cells have different coordinates |
| CellRefs.CoordinateHasNoColon | src/spreadsheet/analyzer.py:220 | a coordinate holds no ":" |
| Text.StripEmptyIffBlank | src/core/validation.py:143 | `s.strip()` is empty iff s is all whitespace |
| Text.StripKeeps | src/spreadsheet/analyzer.py:257-259 | a string with a non-space character strips to a non-empty string |
| Text.Split | src/sync/backup_manager.py:275 | `split('_')` gives one more part than there are separators, none containing one |
| Text.StemSuffixSplit | src/spreadsheet/scanner.py:267-272 | a name's stem followed by its suffix is the name |
| Seqs.SortDesc | src/core/backup.py:285 | `sort(key, reverse=True)` yields a permutation ordered by descending key |
| Seqs.SortDescStable | src/core/backup.py:285 | the sort is stable: the elements with any one key come out in input order |
| Seqs.InsertTies | src/core/backup.py:285 | inserting an element puts it ahead of the elements with its key and keeps the order among those with any other key |
| Seqs.FilterIdempotent | src/spreadsheet/scanner.py:192-201 | filtering twice with the same test changes nothing |

## Left out

- File system, openpyxl, pandas, zip, MD5, shutil and the clock: their results are inputs (directory listings, `stat`, sheet grids, frame sizes, checksums, `now`). Workbook loading, the attribute reads of `_extract_cell_style`, and the enumeration of charts, images and rules are not modelled. The sheet carries those lists.
- Threads, locks, the FileMonitor polling loop, watchdog events, callbacks and the change queue are left out, since the model is sequential. `add_directory`, `scan_now` and `SpreadsheetMonitor` are left out too.
- The Tkinter interface, metrics, logging, configuration, and the exception classes are not modelled.
- Validation.ValidateValue: `_check_type`, `_convert_value` and the regex match are library calls, so they are inputs (`Outcomes`). The range, length, pattern and allowed-value comparisons are over those outcomes. The issue message texts are not modelled. A converted number is an exact real: the NaN and infinities that converting "nan" or "inf" to float yields are not modelled (in the source NaN trips neither range check).
- `validate_dataframe`, `validate_file`, `_infer_schema`, `is_valid_email` and the date-string test of src/core/validation.py are not part of this model.
- Analyzer: cell renderings (`str(value)`) are stored strings rather than derived from Python number and date formatting. The 70% header test is exact rational arithmetic rather than a float comparison.
- CellRefs.ColumnLetter accepts up to column 18278 ("ZZZ"), beyond Excel's last column 16384 ("XFD"). No sheet reaches that far, so nothing else depends on it.
- Text: `str.isdigit` and `str.lower` are modelled on ASCII only. `re.sub(r'\D', '')` and `int()` in the CPF/CNPJ code use the Unicode decimal digits. So do `\d` in the `strptime` patterns of src/sync/backup_manager.py:276 and the digit tests of `fromisoformat`; the model reads those as ASCII digits.
- Cache.Set requires max_size >= 0, because with a negative bound the eviction loop of src/core/cache.py never ends (evicting from an empty cache changes nothing).
- Cache: entry sizes come from pickling, so they are an input (0 when pickling fails). `CacheEntry.metadata`, `get_stats` ratios and the `FileCache` class are not modelled.
- Backups.FromDict fails on a wrongly typed value (for example a number as backup_id), where Python would build a record holding it. The free-form `metadata` dict of a backup is not modelled.
- Backups.CreateBackup: the corrected failure carries the error details only, not the "Erro no backup <path>: " prefix that the two-argument `BackupError` would add to its message.
- Paths are plain strings throughout: the normalisation of `pathlib.Path` (so "a//b", "./a" and "a/" equal "a/b", "a" and "a") is not modelled, neither where the scanner and validator build `str(Path(p))` nor where `list_backups` compares source paths as `Path` values (src/core/backup.py:278).
- Backups: archive creation, restore, incremental change detection, `_validate_backup_integrity` and `delete_backup`'s file removal are left out. `CreateBackup` takes the outcome of that work as an input.
- SyncBackups.CleanupOldBackups returns every name the loop would remove. An `OSError` from `unlink` in src/sync/backup_manager.py:243 ends the whole clean-up early; that case is not modelled.
- Floating point is left out: `total_size_mb` rounding, `size_mb`, hit rates and the size-difference percentage. SyncBackups.GetBackupStatistics states the total in bytes.
- DateTimes: `strftime("%Y")` writes years below 1000 without padding. The round trips are therefore stated for years from 1000 on.
- DateTimes.ParseIso: accepts only the two shapes `isoformat()` writes, "YYYY-MM-DDTHH:MM:SS" and the same with ".ffffff". Python 3.11's `fromisoformat` also takes dates alone, a space separator, fewer fraction digits and UTC offsets. `to_dict` writes only the two shapes modelled, so the round trips do not depend on the others.
- Validator.PandasReport: the `is_valid` mutation of the scanner's info record (src/spreadsheet/validator.py:489-491) is not modelled. The outer "Erro inesperado" handler is not modelled either.
- Validator: `max_row` and `max_column` are taken as reported by openpyxl, never None. `validate_multiple`, `get_validation_summary` and `_create_error_result` read fields the result record does not have; they are not part of this model.
- Validator: `has_errors`, `has_warnings` and `is_valid` are predicates by definition. `ErrorsIffFailedStatus` states how they relate.

## Findings

| source | as written | input that shows it | evidently intended | confidence | as-written member | corrected member |
|---|---|---|---|---|---|---|
| src/spreadsheet/validator.py:593-595 | after deciding the status, the pandas path calls `_log_validation_result`, which reads `result.spreadsheet_info`; the result record has no such field, so the AttributeError is caught at line 496 and the file is reported as ERROR with a load error. The pandas path is reached only by a `SpreadsheetInfo` whose extension field is ".xlsx" or ".xls" while its path has no Excel suffix (for example one built by hand); `validate_file` never reaches it (Validator.ValidateFileSkipsPandas) | a workbook taking the pandas path with one readable sheet of 10 rows and 3 columns, all 30 values non-null | the decided status, here VALID | not executed | Validator.PandasReportAsWritten | Validator.PandasReport |
| src/core/backup.py:204 | both `raise BackupError(...)` calls in `create_backup` (here and at line 161) pass one argument, but `BackupError.__init__` takes a backup path and the error details (src/core/exceptions.py:185-190), so constructing the exception raises a TypeError that hides the cause | an existing source whose `_execute_backup` raises an OSError "disk full" | a `BackupError` carrying "Falha no backup: disk full" | not executed | Backups.CreateBackupAsWritten | Backups.CreateBackup |
