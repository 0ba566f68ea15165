/** The file-validation decisions of src/spreadsheet/validator.py: the size
    thresholds, the order of the early exits, the emptiness rule for .xlsx
    workbooks, the status precedence of the pandas path and the per-path map
    of `validate_multiple_files`. What the file system and the spreadsheet
    libraries report about a file is an input (`FileView`). */
module Validator {
  import opened Wrappers
  import opened Text
  import opened Scanner
  import opened Seqs

  datatype Status = Valid | Invalid | Warning | Error

  /** The metadata recorded when a workbook was read. */
  datatype Totals = Totals(sheetsCount: nat, totalRows: nat, totalColumns: nat, hasData: bool)

  /** `SpreadsheetValidationResult`. */
  datatype Report = Report(
    filePath: string,
    status: Status,
    errors: seq<string>,
    warnings: seq<string>,
    totals: Option<Totals>)

  predicate HasErrors(r: Report) { |r.errors| > 0 }
  predicate HasWarnings(r: Report) { |r.warnings| > 0 }
  predicate IsValid(r: Report) { r.status == Valid }

  const MinSize := 1024
  const LargeSize := 50 * 1024 * 1024

  const EmptyFile := "Arquivo está vazio (0 bytes)"
  const TooSmall := "Arquivo muito pequeno para ser uma planilha válida"
  const TooLarge := "Arquivo muito grande, pode demorar para processar"
  const HeadersOnly := "Planilha vazia ou contém apenas cabeçalhos"
  const NoSheets := "Planilha não contém abas"
  const AllSheetsEmpty := "Todas as abas estão vazias"
  const NoValidData := "Planilha não contém dados válidos"

  /** Rows and columns of one sheet as openpyxl (`max_row`, `max_column`) or
      xlrd (`nrows`, `ncols`) reports them. */
  datatype SheetSize = SheetSize(rows: nat, columns: nat)

  /** One sheet as pandas reads it: `len(df)`, `len(df.columns)` and the
      number of non-null cells. */
  datatype Frame = Frame(rows: nat, columns: nat, nonNull: nat)

  /** What the outside world says about one path: whether it exists, its
      `stat` (or the error raised), the workbook as openpyxl/xlrd load it and
      the sheets as pandas reads them, each with the error it may raise. */
  datatype FileView = FileView(
    present: bool,
    stat: Result<FileStat>,
    workbook: Result<seq<SheetSize>>,
    frames: Result<seq<(string, Result<Frame>)>>)

  /** `os.path.getsize`. */
  function SizeOf(v: FileView): Result<nat> {
    match v.stat
    case Success(s) => Success(s.size)
    case Failure(e) => Failure(e)
  }

  /** `_check_file_size`: (errors, warnings). */
  function CheckFileSize(size: Result<nat>): (r: (seq<string>, seq<string>))
    ensures |r.0| + |r.1| <= 1
    ensures size.Failure? ==> |r.0| == 1
    ensures size.Success? ==> (|r.0| > 0 <==> size.value < MinSize)
    ensures size.Success? ==> (|r.1| > 0 <==> size.value > LargeSize)
    ensures size.Success? && size.value == 0 ==> r.0 == [EmptyFile]
    ensures size.Success? && 0 < size.value < MinSize ==> r.0 == [TooSmall]
  {
    match size
    case Failure(e) => (["Erro ao verificar tamanho do arquivo: " + e], [])
    case Success(n) =>
      if n == 0 then ([EmptyFile], [])
      else if n < MinSize then ([TooSmall], [])
      else if n > LargeSize then ([], [TooLarge])
      else ([], [])
  }

  function TotalRows(sheets: seq<SheetSize>): nat {
    if |sheets| == 0 then 0 else TotalRows(sheets[..|sheets| - 1]) + sheets[|sheets| - 1].rows
  }

  function TotalColumns(sheets: seq<SheetSize>): nat {
    if |sheets| == 0 then 0 else TotalColumns(sheets[..|sheets| - 1]) + sheets[|sheets| - 1].columns
  }

  function WorkbookTotals(sheets: seq<SheetSize>): Totals {
    Totals(|sheets|, TotalRows(sheets), TotalColumns(sheets), TotalRows(sheets) > 0)
  }

  /** `_validate_xlsx_file`: size errors make the file INVALID; a workbook
      whose rows add up to no more than its sheet count is INVALID with one
      error; a load failure is an ERROR; otherwise VALID with the totals. */
  function XlsxReport(path: string, v: FileView): (r: Report)
    ensures r.filePath == path
    ensures r.warnings == CheckFileSize(SizeOf(v)).1
    ensures CheckFileSize(SizeOf(v)).0 != [] ==> r.status == Invalid && r.errors == CheckFileSize(SizeOf(v)).0
    ensures CheckFileSize(SizeOf(v)).0 == [] && v.workbook.Success? ==>
      (r.status == Invalid <==> TotalRows(v.workbook.value) <= |v.workbook.value|)
    ensures CheckFileSize(SizeOf(v)).0 == [] && v.workbook.Success? && r.status == Invalid ==> r.errors == [HeadersOnly]
    ensures r.status == Valid <==> CheckFileSize(SizeOf(v)).0 == [] && v.workbook.Success? && TotalRows(v.workbook.value) > |v.workbook.value|
    ensures r.status == Valid ==> r.errors == [] && r.totals == Some(WorkbookTotals(v.workbook.value))
    ensures r.status == Error <==> CheckFileSize(SizeOf(v)).0 == [] && v.workbook.Failure?
  {
    var (errs, warns) := CheckFileSize(SizeOf(v));
    if errs != [] then Report(path, Invalid, errs, warns, None)
    else match v.workbook
      case Failure(e) => Report(path, Error, ["Erro ao validar arquivo XLSX: " + e], warns, None)
      case Success(sheets) =>
        if TotalRows(sheets) <= |sheets| then Report(path, Invalid, [HeadersOnly], warns, None)
        else Report(path, Valid, [], warns, Some(WorkbookTotals(sheets)))
  }

  /** openpyxl reports at least one row per sheet, and then the emptiness
      rule rejects exactly the workbooks in which every sheet has a single
      row. */
  lemma {:induction false} ThinIffSingleRows(sheets: seq<SheetSize>)
    requires forall i :: 0 <= i < |sheets| ==> sheets[i].rows >= 1
    ensures TotalRows(sheets) >= |sheets|
    ensures TotalRows(sheets) <= |sheets| <==> forall i :: 0 <= i < |sheets| ==> sheets[i].rows == 1
  {
    if |sheets| > 0 {
      var init := sheets[..|sheets| - 1];
      assert forall i :: 0 <= i < |init| ==> init[i] == sheets[i];
      ThinIffSingleRows(init);
    }
  }

  /** `_validate_xls_file`: like the .xlsx check but with no emptiness rule. */
  function XlsReport(path: string, v: FileView): (r: Report)
    ensures r.filePath == path
    ensures r.warnings == CheckFileSize(SizeOf(v)).1
    ensures r.status == Invalid <==> CheckFileSize(SizeOf(v)).0 != []
    ensures r.status == Invalid ==> r.errors == CheckFileSize(SizeOf(v)).0
    ensures r.status == Valid <==> CheckFileSize(SizeOf(v)).0 == [] && v.workbook.Success?
    ensures r.status == Valid ==> r.errors == [] && r.totals == Some(WorkbookTotals(v.workbook.value))
    ensures r.status != Warning
  {
    var (errs, warns) := CheckFileSize(SizeOf(v));
    if errs != [] then Report(path, Invalid, errs, warns, None)
    else match v.workbook
      case Failure(e) => Report(path, Error, ["Erro ao validar arquivo XLS: " + e], warns, None)
      case Success(sheets) => Report(path, Valid, [], warns, Some(WorkbookTotals(sheets)))
  }

  /** A sheet holds data when it has rows, columns and a non-null cell. */
  predicate Filled(f: Frame) {
    f.rows > 0 && f.columns > 0 && f.nonNull > 0
  }

  function Max(a: nat, b: nat): nat {
    if a >= b then a else b
  }

  /** The state of the per-sheet loop of the pandas path. */
  datatype FrameScan = FrameScan(errors: seq<string>, totalRows: nat, totalColumns: nat, hasData: bool, emptySheets: seq<string>)

  predicate ReadFilled(sheet: (string, Result<Frame>)) {
    sheet.1.Success? && Filled(sheet.1.value)
  }

  predicate ReadFailed(sheet: (string, Result<Frame>)) {
    sheet.1.Failure?
  }

  predicate ReadEmpty(sheet: (string, Result<Frame>)) {
    sheet.1.Success? && !Filled(sheet.1.value)
  }

  function SheetNames(sheets: seq<(string, Result<Frame>)>): (names: seq<string>)
    ensures |names| == |sheets| && forall i :: 0 <= i < |sheets| ==> names[i] == sheets[i].0
  {
    seq(|sheets|, i requires 0 <= i < |sheets| => sheets[i].0)
  }

  lemma SheetNamesAppend(a: seq<(string, Result<Frame>)>, b: seq<(string, Result<Frame>)>)
    ensures SheetNames(a + b) == SheetNames(a) + SheetNames(b)
  {
  }

  /** Every sheet either fails to read, reads empty, or reads filled. */
  lemma {:induction false} SheetsPartition(sheets: seq<(string, Result<Frame>)>)
    ensures |Filter(sheets, ReadFailed)| + |Filter(sheets, ReadEmpty)| + |Filter(sheets, ReadFilled)| == |sheets|
  {
    if |sheets| > 0 {
      SheetsPartition(sheets[1..]);
    }
  }

  /** One error or one listed name for each sheet that holds no data. */
  lemma ScanAccounts(sheets: seq<(string, Result<Frame>)>)
    ensures var s := ScanFrames(sheets);
      |s.errors| + |s.emptySheets| + |Filter(sheets, ReadFilled)| == |sheets|
  {
    SheetsPartition(sheets);
  }

  /** The rows of the readable sheets, added up from the first sheet on. */
  function RowsRead(sheets: seq<(string, Result<Frame>)>): nat {
    if |sheets| == 0 then 0
    else (if sheets[0].1.Success? then sheets[0].1.value.rows else 0) + RowsRead(sheets[1..])
  }

  lemma {:induction false} RowsReadAppend(a: seq<(string, Result<Frame>)>, b: seq<(string, Result<Frame>)>)
    ensures RowsRead(a + b) == RowsRead(a) + RowsRead(b)
  {
    if |a| == 0 {
      assert a + b == b;
    } else {
      assert (a + b)[1..] == a[1..] + b;
      RowsReadAppend(a[1..], b);
    }
  }

  /** The largest column count of a readable sheet (0 when there is none). */
  function ColumnsRead(sheets: seq<(string, Result<Frame>)>): nat {
    if |sheets| == 0 then 0
    else
      var last := sheets[|sheets| - 1];
      Max(ColumnsRead(sheets[..|sheets| - 1]), if last.1.Success? then last.1.value.columns else 0)
  }

  /** `max(total_columns, cols)` over the loop is the largest column count. */
  lemma {:induction false} ColumnsReadIsMax(sheets: seq<(string, Result<Frame>)>)
    ensures forall i :: 0 <= i < |sheets| && sheets[i].1.Success? ==> sheets[i].1.value.columns <= ColumnsRead(sheets)
    ensures ColumnsRead(sheets) == 0
            || exists i :: 0 <= i < |sheets| && sheets[i].1.Success? && sheets[i].1.value.columns == ColumnsRead(sheets)
  {
    if |sheets| > 0 {
      var init := sheets[..|sheets| - 1];
      ColumnsReadIsMax(init);
      assert forall i :: 0 <= i < |init| ==> init[i] == sheets[i];
    }
  }

  /** The loop over the sheets: each sheet that fails to read adds one error,
      each readable one adds its rows to the total and raises the column
      maximum, and is listed by name when empty or sets `has_data` when
      filled. Every sheet lands in exactly one of the three groups. */
  function ScanFrames(sheets: seq<(string, Result<Frame>)>): (s: FrameScan)
    ensures s.hasData <==> exists i :: 0 <= i < |sheets| && ReadFilled(sheets[i])
    ensures |s.errors| == |Filter(sheets, ReadFailed)|
    ensures s.emptySheets == SheetNames(Filter(sheets, ReadEmpty))
    ensures s.totalRows == RowsRead(sheets)
    ensures s.totalColumns == ColumnsRead(sheets)
    decreases |sheets|
  {
    if |sheets| == 0 then FrameScan([], 0, 0, false, [])
    else
      var init := sheets[..|sheets| - 1];
      var last := sheets[|sheets| - 1];
      var prev := ScanFrames(init);
      assert sheets == init + [last];
      assert forall i :: 0 <= i < |init| ==> init[i] == sheets[i];
      FilterAppend(init, [last], ReadFailed);
      FilterAppend(init, [last], ReadEmpty);
      SheetNamesAppend(Filter(init, ReadEmpty), Filter([last], ReadEmpty));
      RowsReadAppend(init, [last]);
      assert RowsRead([last]) == if last.1.Success? then last.1.value.rows else 0;
      match last.1
      case Failure(e) =>
        prev.(errors := prev.errors + ["Erro ao ler aba '" + last.0 + "': " + e])
      case Success(f) =>
        prev.(totalRows := prev.totalRows + f.rows,
              totalColumns := Max(prev.totalColumns, f.columns),
              hasData := prev.hasData || Filled(f),
              emptySheets := if Filled(f) then prev.emptySheets else prev.emptySheets + [last.0])
  }

  function Join(parts: seq<string>, sep: string): string {
    if |parts| == 0 then ""
    else if |parts| == 1 then parts[0]
    else parts[0] + sep + Join(parts[1..], sep)
  }

  /** The empty-sheet verdict: all sheets empty is an error, some empty is a
      warning naming them. */
  function EmptySheetMessages(s: FrameScan, sheetCount: nat): (r: (seq<string>, seq<string>))
    ensures s.emptySheets == [] ==> r == (s.errors, [])
    ensures s.emptySheets != [] && |s.emptySheets| == sheetCount ==> r == (s.errors + [AllSheetsEmpty], [])
    ensures s.emptySheets != [] && |s.emptySheets| != sheetCount ==> r.0 == s.errors && |r.1| == 1
  {
    if s.emptySheets == [] then (s.errors, [])
    else if |s.emptySheets| == sheetCount then (s.errors + [AllSheetsEmpty], [])
    else (s.errors, ["Abas vazias encontradas: " + Join(s.emptySheets, ", ")])
  }

  /** The status precedence: any error gives ERROR; else no data gives INVALID
      with one added error; else any warning gives WARNING; else VALID. */
  function Decide(errors: seq<string>, warnings: seq<string>, hasData: bool): (r: (Status, seq<string>))
    ensures r.0 == Error <==> errors != []
    ensures r.0 == Invalid <==> errors == [] && !hasData
    ensures r.0 == Warning <==> errors == [] && hasData && warnings != []
    ensures r.0 == Valid <==> errors == [] && hasData && warnings == []
    ensures r.1 == if r.0 == Invalid then [NoValidData] else errors
  {
    if errors != [] then (Error, errors)
    else if !hasData then (Invalid, errors + [NoValidData])
    else if warnings != [] then (Warning, errors)
    else (Valid, errors)
  }

  /** The pandas path as it is evidently meant to end: the decided status,
      with `warnings` the size warnings carried in from the early checks. */
  function PandasReport(path: string, warnings: seq<string>, frames: Result<seq<(string, Result<Frame>)>>): (r: Report)
    ensures r.filePath == path
    ensures frames.Failure? ==> r.status == Error && |r.errors| == 1
    ensures frames.Success? && frames.value == [] ==> r.status == Error && r.errors == [NoSheets]
    ensures frames.Success? && frames.value != [] ==>
      (r.status == Valid <==>
        warnings == [] && ScanFrames(frames.value).errors == [] && ScanFrames(frames.value).emptySheets == []
        && ScanFrames(frames.value).hasData)
    ensures (frames.Success? && frames.value != [] && ScanFrames(frames.value).hasData
             && ScanFrames(frames.value).errors == []) ==> r.status in {Valid, Warning}
  {
    match frames
    case Failure(e) => Report(path, Error, ["Erro ao carregar planilha: " + e], warnings, None)
    case Success(sheets) =>
      if sheets == [] then Report(path, Error, [NoSheets], warnings, None)
      else
        var s := ScanFrames(sheets);
        assert s.hasData ==> |s.emptySheets| < |sheets| by {
          ScanAccounts(sheets);
          if s.hasData {
            var i :| 0 <= i < |sheets| && ReadFilled(sheets[i]);
            FilterMembership(sheets, ReadFilled, sheets[i]);
          }
        }
        var (errs, extra) := EmptySheetMessages(s, |sheets|);
        var (status, errs') := Decide(errs, warnings + extra, s.hasData);
        Report(path, status, errs', warnings + extra, Some(Totals(|sheets|, s.totalRows, s.totalColumns, s.hasData)))
  }

  /** The text of the AttributeError `_log_validation_result` raises. */
  const MissingField := "'SpreadsheetValidationResult' object has no attribute 'spreadsheet_info'"

  /** The pandas path as written: once the status is decided, logging the
      result reads a field the result does not have; the AttributeError is
      caught by the loader's handler, which appends a load error and returns
      ERROR. */
  function PandasReportAsWritten(path: string, warnings: seq<string>, frames: Result<seq<(string, Result<Frame>)>>): (r: Report)
    ensures r.filePath == path
    ensures r.status == Error && r.errors != []
    ensures frames.Success? && frames.value != [] ==>
      r.errors == PandasReport(path, warnings, frames).errors + ["Erro ao carregar planilha: " + MissingField]
  {
    match frames
    case Failure(e) => Report(path, Error, ["Erro ao carregar planilha: " + e], warnings, None)
    case Success(sheets) =>
      if sheets == [] then Report(path, Error, [NoSheets], warnings, None)
      else
        var decided := PandasReport(path, warnings, frames);
        Report(path, Error, decided.errors + ["Erro ao carregar planilha: " + MissingField], decided.warnings, decided.totals)
  }

  /** One readable sheet full of data: the intended verdict is VALID, the
      code as written says ERROR. */
  lemma PandasLoggingTurnsValidIntoError()
    ensures var frames := Success([("Dados", Success(Frame(10, 3, 30)))]);
      && PandasReport("dados.xlsx", [], frames).status == Valid
      && PandasReportAsWritten("dados.xlsx", [], frames).status == Error
  {
    var sheets := [("Dados", Success(Frame(10, 3, 30)))];
    assert ReadFilled(sheets[0]);
  }

  function NotFound(path: string): string {
    "Arquivo não encontrado: " + path
  }

  /** `validate_spreadsheet`: the checks in order (missing file, extension,
      empty, under 1 KiB, the size check on disk) each end the validation
      with one error; an Excel path then goes to the .xlsx or .xls check,
      anything else to the pandas path. */
  function ValidateSpreadsheet(info: SpreadsheetInfo, v: FileView): (r: Report)
    ensures r.filePath == info.path
    ensures !v.present ==> r == Report(info.path, Error, [NotFound(info.path)], [], None)
    ensures v.present && !IsExcel(info) ==> r.status == Invalid && |r.errors| == 1 && r.warnings == []
    ensures v.present && IsExcel(info) && info.size == 0 ==> r == Report(info.path, Invalid, [EmptyFile], [], None)
    ensures v.present && IsExcel(info) && 0 < info.size < MinSize ==> r == Report(info.path, Invalid, [TooSmall], [], None)
    ensures v.present && IsExcel(info) && info.size >= MinSize && CheckFileSize(SizeOf(v)).0 != [] ==>
      r.status == Invalid && |r.errors| == 1
    ensures v.present && IsExcel(info) && info.size >= MinSize && CheckFileSize(SizeOf(v)).0 == [] && IsExcelFile(info.path) ==>
      r == (if Lower(info.extension) == ".xlsx" then XlsxReport(info.path, v) else XlsReport(info.path, v))
    ensures v.present && IsExcel(info) && info.size >= MinSize && CheckFileSize(SizeOf(v)).0 == [] && !IsExcelFile(info.path) ==>
      r == PandasReportAsWritten(info.path, CheckFileSize(SizeOf(v)).1, v.frames) && r.status == Error
  {
    if !v.present then Report(info.path, Error, [NotFound(info.path)], [], None)
    else if Lower(info.extension) !in SupportedExtensions then
      Report(info.path, Invalid, ["Extensão não suportada: " + info.extension], [], None)
    else if info.size == 0 then Report(info.path, Invalid, [EmptyFile], [], None)
    else if info.size < MinSize then Report(info.path, Invalid, [TooSmall], [], None)
    else
      var (errs, warns) := CheckFileSize(SizeOf(v));
      if errs != [] then Report(info.path, Invalid, errs, warns, None)
      else if IsExcelFile(info.path) then
        if Lower(info.extension) == ".xlsx" then XlsxReport(info.path, v) else XlsReport(info.path, v)
      else PandasReportAsWritten(info.path, warns, v.frames)
  }

  /** Errors and the status agree on every path: a report has errors exactly
      when it is INVALID or ERROR. */
  lemma ErrorsIffFailedStatus(info: SpreadsheetInfo, v: FileView)
    ensures var r := ValidateSpreadsheet(info, v);
      HasErrors(r) <==> r.status == Invalid || r.status == Error
  {
  }

  /** Through `validate_file` the pandas path is never taken: the extension
      it records is the path's own suffix, so a supported extension means a
      path `_is_excel_file` accepts. */
  lemma ValidateFileSkipsPandas(path: string, v: FileView)
    requires v.present && v.stat.Success?
    ensures var info := InfoOf(path, v.stat.value);
      IsExcel(info) <==> IsExcelFile(info.path)
  {
  }

  /** `validate_file`: a missing path is an ERROR; otherwise the path's
      `stat` becomes the `SpreadsheetInfo` handed to `validate_spreadsheet`.
      A failing `stat` raises, which is the `Failure` here. */
  function ValidateFile(path: string, v: FileView): (r: Result<Report>)
    ensures !v.present ==> r == Success(Report(path, Error, ["Arquivo não encontrado"], [], None))
    ensures v.present && v.stat.Failure? ==> r.Failure?
    ensures v.present && v.stat.Success? ==> r.Success? && r.value == ValidateSpreadsheet(InfoOf(path, v.stat.value), v)
    ensures r.Success? ==> r.value.filePath == path
  {
    if !v.present then Success(Report(path, Error, ["Arquivo não encontrado"], [], None))
    else match v.stat
      case Failure(e) => Failure(e)
      case Success(st) => Success(ValidateSpreadsheet(InfoOf(path, st), v))
  }

  /** The `SpreadsheetInfo` `validate_file` builds: the extension is the raw
      suffix, not lower-cased, and `is_valid` keeps its default, false. */
  function InfoOf(path: string, st: FileStat): SpreadsheetInfo {
    SpreadsheetInfo(BaseName(path), path, st.size, st.modified, Suffix(BaseName(path)), false, None)
  }

  /** One entry of `validate_multiple_files`: an exception becomes an ERROR report. */
  function FileResult(path: string, v: FileView): (r: Report)
    ensures r.filePath == path
    ensures HasErrors(r) <==> r.status == Invalid || r.status == Error
  {
    match ValidateFile(path, v)
    case Success(rep) =>
      if v.present then ErrorsIffFailedStatus(InfoOf(path, v.stat.value), v); rep else rep
    case Failure(e) => Report(path, Error, ["Erro ao validar arquivo: " + e], [], None)
  }

  /** `validate_multiple_files`, with `views(p)` what the outside world says
      about `p`: one report per distinct input path, under that path. */
  method ValidateMultipleFiles(paths: seq<string>, views: string -> FileView) returns (results: map<string, Report>)
    ensures results.Keys == set p | p in paths
    ensures forall p :: p in results ==> results[p] == FileResult(p, views(p))
    ensures |paths| == 0 ==> results == map[]
  {
    results := MapEach(paths, p => FileResult(p, views(p)));
  }
}
