/** The structural analyser of src/spreadsheet/analyzer.py over an abstract
    worksheet: a rectangular grid of cells, each holding the value openpyxl
    reads with `data_only=False`, the style `_extract_cell_style` extracts, and
    its hyperlink. Header detection, column type inference, the styles map,
    formula extraction, the visual-element catalogue, the complexity score and
    the workbook-level aggregation are modelled as pure functions. */
module Analyzer {
  import opened Wrappers
  import opened Text
  import opened CellRefs
  import opened Seqs
  import Scanner

  /** `CellType`. */
  datatype CellType = HeaderCell | DataCell | FormulaCell | EmptyCell | MergedCell

  /** A cell value. Numbers and temporal values carry their `str(...)`
      rendering; a formula is the string (starting with '=') openpyxl keeps
      for cells of data type 'f'. */
  datatype CellValue =
    | Empty
    | Str(s: string)
    | Num(rendered: string)
    | Bool(b: bool)
    | Temporal(rendered: string)
    | Formula(text: string)

  /** `CellStyle`, as `_extract_cell_style` fills it in. */
  datatype CellStyle = CellStyle(
    fontName: Option<string>,
    fontSize: Option<real>,
    fontBold: bool,
    fontItalic: bool,
    fontColor: Option<string>,
    fillColor: Option<string>,
    borderStyle: Option<string>,
    alignmentHorizontal: Option<string>,
    alignmentVertical: Option<string>,
    numberFormat: Option<string>)

  datatype Hyperlink = Hyperlink(target: Option<string>)

  datatype Cell = Cell(value: CellValue, style: CellStyle, hyperlink: Option<Hyperlink>)

  datatype ConditionalFormat = ConditionalFormat(range: string, rulesCount: nat)

  datatype DataValidation = DataValidation(range: string, kind: Option<string>)

  /** A worksheet: the cell grid (row 1 first) and the objects openpyxl lists
      beside it — merged ranges as strings, chart type names, image anchors,
      conditional formats and data validations. */
  datatype Sheet = Sheet(
    name: string,
    grid: seq<seq<Cell>>,
    mergedRanges: seq<string>,
    charts: seq<string>,
    images: seq<string>,
    conditionalFormats: seq<ConditionalFormat>,
    dataValidations: seq<DataValidation>)

  /** openpyxl reports at least one row and one column, even for an empty
      sheet, and a column count that `get_column_letter` accepts. */
  predicate WellFormed(sh: Sheet) {
    && |sh.grid| >= 1
    && 1 <= |sh.grid[0]| <= MaxColumn
    && forall r :: 0 <= r < |sh.grid| ==> |sh.grid[r]| == |sh.grid[0]|
  }

  /** `worksheet.max_row` */
  function MaxRow(sh: Sheet): nat
    requires WellFormed(sh)
  {
    |sh.grid|
  }

  /** `worksheet.max_column` */
  function MaxCol(sh: Sheet): nat
    requires WellFormed(sh)
  {
    |sh.grid[0]|
  }

  /** Row `r` (1-based). */
  function RowOf(sh: Sheet, r: nat): seq<Cell>
    requires WellFormed(sh) && 1 <= r <= MaxRow(sh)
  {
    sh.grid[r - 1]
  }

  // ----- header detection -----

  /** `str(value)` of a non-empty value (and "None" for an empty one). */
  function Rendered(v: CellValue): string {
    match v
    case Empty => "None"
    case Str(s) => s
    case Num(r) => r
    case Bool(b) => if b then "True" else "False"
    case Temporal(r) => r
    case Formula(t) => t
  }

  /** `isinstance(value, str) and value.strip()` */
  predicate IsTextValue(v: CellValue) {
    (v.Str? || v.Formula?) && !IsBlank(Rendered(v))
  }

  /** What `_detect_headers` appends for a cell: stripped text for a non-blank
      string, otherwise `str(value)` — so a whitespace-only string goes in as
      it is — and "" for an empty cell. */
  function HeaderToken(v: CellValue): string {
    if v.Empty? then ""
    else if IsTextValue(v) then Strip(Rendered(v))
    else Rendered(v)
  }

  function RowTokens(row: seq<Cell>): (r: seq<string>)
    ensures |r| == |row|
    ensures forall j :: 0 <= j < |row| ==> r[j] == HeaderToken(row[j].value)
  {
    seq(|row|, j requires 0 <= j < |row| => HeaderToken(row[j].value))
  }

  predicate NonEmptyToken(t: string) {
    t != ""
  }

  /** `val.replace('.', '').replace(',', '').isdigit()` */
  predicate IsNumericToken(t: string) {
    IsDigits(Remove(Remove(t, '.'), ','))
  }

  predicate IsTextToken(t: string) {
    t != "" && !IsNumericToken(t)
  }

  /** `[val for val in row_values if val]`: the headers a qualifying row yields. */
  function HeaderValues(row: seq<Cell>): seq<string> {
    Filter(RowTokens(row), NonEmptyToken)
  }

  /** The `_detect_headers` test: some non-blank string cell, some non-empty
      value, and at least 70% of the non-empty values not purely numeric
      (`text_count >= n * 0.7`, here in exact arithmetic). */
  predicate RowQualifies(row: seq<Cell>) {
    var values := HeaderValues(row);
    && (exists j :: 0 <= j < |row| && IsTextValue(row[j].value))
    && |values| > 0
    && 10 * |Filter(RowTokens(row), IsTextToken)| >= 7 * |values|
  }

  /** Among tokens none of which reads as a number, the text tokens are
      exactly the non-empty ones. */
  lemma TextTokensAreNonEmpty(tokens: seq<string>)
    requires forall t :: t in tokens ==> !IsNumericToken(t)
    ensures Filter(tokens, IsTextToken) == Filter(tokens, NonEmptyToken)
  {
    FilterSame(tokens, IsTextToken, NonEmptyToken);
  }

  /** Conversely, a row with a non-blank string cell and no value that reads
      as a number qualifies: every non-empty value then counts as text. */
  lemma TextRowQualifies(row: seq<Cell>)
    requires exists j :: 0 <= j < |row| && IsTextValue(row[j].value)
    requires forall t :: t in RowTokens(row) ==> !IsNumericToken(t)
    ensures RowQualifies(row)
  {
    var tokens := RowTokens(row);
    TextTokensAreNonEmpty(tokens);
    var j :| 0 <= j < |row| && IsTextValue(row[j].value);
    StripEmptyIffBlank(Rendered(row[j].value));
    assert NonEmptyToken(tokens[j]);
    FilterMembership(tokens, NonEmptyToken, tokens[j]);
    assert |HeaderValues(row)| > 0;
  }

  function Min(a: int, b: int): int {
    if a <= b then a else b
  }

  /** `_detect_headers`: (headers, header_row) over rows 1..min(5, max_row). */
  function DetectHeaders(sh: Sheet): (res: (seq<string>, Option<nat>))
    requires WellFormed(sh)
    ensures res.1.None? ==>
      res.0 == [] && forall k :: 1 <= k <= Min(5, MaxRow(sh)) ==> !RowQualifies(RowOf(sh, k))
    ensures res.1.Some? ==>
      && 1 <= res.1.value <= 5 && res.1.value <= MaxRow(sh)
      && RowQualifies(RowOf(sh, res.1.value))
      && (forall k :: 1 <= k < res.1.value ==> !RowQualifies(RowOf(sh, k)))
      && res.0 == HeaderValues(RowOf(sh, res.1.value))
  {
    var rows := sh.grid[..Min(5, MaxRow(sh))];
    var i := FirstFrom(rows, RowQualifies, 0);
    ScannedRows(sh, rows, i);
    if i == |rows| then ([], None)
    else (HeaderValues(rows[i]), Some(i + 1))
  }

  lemma ScannedRows(sh: Sheet, rows: seq<seq<Cell>>, i: nat)
    requires WellFormed(sh) && rows == sh.grid[..Min(5, MaxRow(sh))] && i <= |rows|
    requires forall k :: 0 <= k < i ==> !RowQualifies(rows[k])
    ensures forall k :: 1 <= k <= i ==> !RowQualifies(RowOf(sh, k))
  {
    forall k | 1 <= k <= i
      ensures !RowQualifies(RowOf(sh, k))
    {
      assert RowOf(sh, k) == rows[k - 1];
    }
  }

  /** Headers are never empty strings. */
  lemma HeadersNonEmpty(sh: Sheet)
    requires WellFormed(sh)
    ensures forall t :: t in DetectHeaders(sh).0 ==> t != ""
  {
  }

  /** In a qualifying row, a whitespace-only string cell contributes itself,
      unstripped, as a header. */
  lemma BlankStringIsHeader(row: seq<Cell>, j: nat)
    requires j < |row| && row[j].value.Str?
    requires IsBlank(row[j].value.s) && row[j].value.s != ""
    ensures row[j].value.s in HeaderValues(row)
  {
    var tokens := RowTokens(row);
    assert tokens[j] == row[j].value.s;
    FilterMembership(tokens, NonEmptyToken, row[j].value.s);
  }

  /** A row of numbers alone never qualifies, whatever their count: it has no
      string cell. */
  lemma NumbersOnlyRowDoesNotQualify(row: seq<Cell>)
    requires forall j :: 0 <= j < |row| ==> row[j].value.Num? || row[j].value.Empty?
    ensures !RowQualifies(row)
  {
  }

  // ----- data types -----

  /** The categories of `_infer_data_type`, and "empty". */
  datatype DataType = NumberType | DateType | TextType | BooleanType | NoData {
    function Name(): string {
      match this
      case NumberType => "number"
      case DateType => "date"
      case TextType => "text"
      case BooleanType => "boolean"
      case NoData => "empty"
    }

    /** Position in the `type_counts` dict, which `max` uses to break ties. */
    function Rank(): nat {
      match this
      case NumberType => 0
      case DateType => 1
      case TextType => 2
      case BooleanType => 3
      case NoData => 4
    }
  }

  /** The branch `_infer_data_type` counts a value under. `isinstance(True, int)`
      holds, so booleans are numbers and the boolean branch is never taken. */
  function Category(v: CellValue): (k: DataType)
    ensures k != BooleanType && k != NoData
    ensures v.Bool? ==> k == NumberType
  {
    if v.Num? || v.Bool? then NumberType
    else if Count(Rendered(v), '/') == 2 || Count(Rendered(v), '-') == 2 then DateType
    else if v.Bool? then BooleanType
    else TextType
  }

  /** How many values fall under category `k`. */
  function CountOf(values: seq<CellValue>, k: DataType): nat {
    |Filter(values, v => Category(v) == k)|
  }

  datatype Tally = Tally(number: nat, date: nat, text: nat, boolean: nat)

  /** The counting loop of `_infer_data_type`, one pass over the values:
      every value is counted once, and never as a boolean. */
  function TallyOf(values: seq<CellValue>): (t: Tally)
    ensures t.number + t.date + t.text == |values| && t.boolean == 0
  {
    if |values| == 0 then Tally(0, 0, 0, 0)
    else
      var rest := TallyOf(values[1..]);
      var c := Category(values[0]);
      Tally(rest.number + (if c == NumberType then 1 else 0),
            rest.date + (if c == DateType then 1 else 0),
            rest.text + (if c == TextType then 1 else 0),
            rest.boolean + (if c == BooleanType then 1 else 0))
  }

  /** Each counter of the loop is the number of values of its category. */
  lemma {:induction false} TallyCounts(values: seq<CellValue>)
    ensures TallyOf(values).number == CountOf(values, NumberType)
    ensures TallyOf(values).date == CountOf(values, DateType)
    ensures TallyOf(values).text == CountOf(values, TextType)
    ensures TallyOf(values).boolean == CountOf(values, BooleanType)
  {
    if |values| > 0 {
      TallyCounts(values[1..]);
      assert values == [values[0]] + values[1..];
    }
  }

  /** `_infer_data_type`: "empty" for no values, otherwise a category of
      largest count, earlier dict entries winning ties; never "boolean". */
  function InferDataType(values: seq<CellValue>): (r: DataType)
    ensures r == NoData <==> |values| == 0
    ensures r != BooleanType
  {
    if |values| == 0 then NoData
    else
      var t := TallyOf(values);
      if t.number >= t.date && t.number >= t.text && t.number >= t.boolean then NumberType
      else if t.date >= t.text && t.date >= t.boolean then DateType
      else if t.text >= t.boolean then TextType
      else BooleanType
  }

  /** The inferred type has the largest count, and every category listed
      before it in the dict has a strictly smaller one. */
  lemma InferredIsMajority(values: seq<CellValue>)
    requires |values| > 0
    ensures forall k :: k != NoData ==> CountOf(values, k) <= CountOf(values, InferDataType(values))
    ensures forall k :: k != NoData && k.Rank() < InferDataType(values).Rank() ==>
      CountOf(values, k) < CountOf(values, InferDataType(values))
  {
    var t := TallyOf(values);
    var r := InferDataType(values);
    TallyCounts(values);
    forall k | k != NoData
      ensures CountOf(values, k) <= CountOf(values, r)
      ensures k.Rank() < r.Rank() ==> CountOf(values, k) < CountOf(values, r)
    {
      var tk := match k
        case NumberType => t.number
        case DateType => t.date
        case TextType => t.text
        case _ => t.boolean;
      var tr := match r
        case NumberType => t.number
        case DateType => t.date
        case TextType => t.text
        case _ => t.boolean;
      assert CountOf(values, k) == tk && CountOf(values, r) == tr;
    }
  }

  /** The values of column `col` in rows `lo..hi-1`, top to bottom. */
  function ColumnValues(sh: Sheet, col: nat, lo: nat, hi: nat): (vs: seq<CellValue>)
    requires WellFormed(sh) && 1 <= col <= MaxCol(sh) && 1 <= lo && hi <= MaxRow(sh) + 1
    ensures |vs| == if lo <= hi then hi - lo else 0
  {
    if lo >= hi then []
    else seq(hi - lo, i requires 0 <= i < hi - lo => sh.grid[lo - 1 + i][col - 1].value)
  }

  predicate NonEmpty(v: CellValue) {
    v != Empty
  }

  /** The sampling loop: the non-empty values of column `col` in rows
      `lo..hi-1`, in row order. */
  function ColumnSamples(sh: Sheet, col: nat, lo: nat, hi: nat): (r: seq<CellValue>)
    requires WellFormed(sh) && 1 <= col <= MaxCol(sh) && 1 <= lo && hi <= MaxRow(sh) + 1
    ensures r == Filter(ColumnValues(sh, col, lo, hi), NonEmpty)
    ensures |r| <= if lo <= hi then hi - lo else 0
    ensures forall i :: 0 <= i < |r| ==> r[i] != Empty
    decreases hi - lo
  {
    if lo >= hi then []
    else
      var v := sh.grid[lo - 1][col - 1].value;
      var vs := ColumnValues(sh, col, lo, hi);
      assert vs[0] == v;
      assert vs[1..] == ColumnValues(sh, col, lo + 1, hi);
      (if v != Empty then [v] else []) + ColumnSamples(sh, col, lo + 1, hi)
  }

  /** `sample_rows = min(10, max_row - header_row)` (no rows when negative). */
  function SampleCount(sh: Sheet, h: nat): (n: nat)
    requires WellFormed(sh)
    ensures n <= 10 && (n == 0 || h + n <= MaxRow(sh))
  {
    var n := Min(10, MaxRow(sh) - h);
    if n <= 0 then 0 else n
  }

  /** The samples of a column below header row `h`. */
  function Samples(sh: Sheet, h: nat, col: nat): seq<CellValue>
    requires WellFormed(sh) && 1 <= col <= MaxCol(sh)
  {
    var n := SampleCount(sh, h);
    if n == 0 then [] else ColumnSamples(sh, col, h + 1, h + 1 + n)
  }

  /** At most ten samples per column, all from rows below the header. */
  lemma SamplesBound(sh: Sheet, h: nat, col: nat)
    requires WellFormed(sh) && 1 <= col <= MaxCol(sh)
    ensures |Samples(sh, h, col)| <= 10
    ensures h < MaxRow(sh) || |Samples(sh, h, col)| == 0
  {
  }

  /** The inferred type of column `col` below row `h`, if it has samples. */
  function ColumnType(sh: Sheet, h: nat, col: nat): Option<DataType>
    requires WellFormed(sh) && 1 <= col <= MaxCol(sh)
  {
    var s := Samples(sh, h, col);
    if |s| > 0 then Some(InferDataType(s)) else None
  }

  /** The type of the 0-based column `j`, or nothing past the last column. */
  function ColumnTypeAt(sh: Sheet, h: nat, j: int): Option<DataType> {
    if WellFormed(sh) && 0 <= j < MaxCol(sh) then ColumnType(sh, h, j + 1) else None
  }

  lemma TypeAtColumn(sh: Sheet, h: nat, col: nat)
    requires WellFormed(sh) && 1 <= col <= MaxCol(sh)
    ensures ColumnTypeAt(sh, h, col - 1) == ColumnType(sh, h, col)
  {
  }

  function ColumnTypes(sh: Sheet, h: nat): (vals: seq<Option<DataType>>)
    requires WellFormed(sh)
    ensures |vals| == MaxCol(sh)
    ensures forall j :: 0 <= j < |vals| ==> vals[j] == ColumnTypeAt(sh, h, j)
  {
    seq(MaxCol(sh), j => ColumnTypeAt(sh, h, j))
  }

  /** `_detect_data_types`: nothing without a header row; otherwise one entry,
      keyed by column letter, for each column with at least one sample, holding
      the type inferred from those samples. */
  function DetectDataTypes(sh: Sheet, headerRow: Option<nat>): (m: map<string, DataType>)
    requires WellFormed(sh)
    ensures headerRow.None? || headerRow.value == 0 ==> m == map[]
    ensures headerRow.Some? && headerRow.value > 0 ==>
      && (forall col :: 1 <= col <= MaxCol(sh) ==>
            (ColumnLetter(col) in m <==> |Samples(sh, headerRow.value, col)| > 0))
      && (forall col :: 1 <= col <= MaxCol(sh) && |Samples(sh, headerRow.value, col)| > 0 ==>
            m[ColumnLetter(col)] == InferDataType(Samples(sh, headerRow.value, col)))
      && (forall k :: k in m ==> exists col :: 1 <= col <= MaxCol(sh) && k == ColumnLetter(col))
  {
    if headerRow.None? || headerRow.value == 0 then map[]
    else
      var h := headerRow.value;
      var vals := ColumnTypes(sh, h);
      LettersDistinct(MaxCol(sh));
      var m := IndexMap(vals, LetterOf, 0);
      TypesByLetter(sh, h, vals, m);
      m
  }

  lemma LettersDistinct(n: nat)
    requires n <= MaxColumn
    ensures forall a, b :: 0 <= a < b < n ==> LetterOf(a) != LetterOf(b)
  {
  }

  lemma TypesByLetter(sh: Sheet, h: nat, vals: seq<Option<DataType>>, m: map<string, DataType>)
    requires WellFormed(sh) && vals == ColumnTypes(sh, h)
    requires forall j :: 0 <= j < |vals| ==> (LetterOf(j) in m <==> vals[j].Some?)
    requires forall j :: 0 <= j < |vals| && vals[j].Some? ==> m[LetterOf(j)] == vals[j].value
    requires forall k :: k in m ==> exists j :: 0 <= j < |vals| && vals[j].Some? && k == LetterOf(j)
    ensures forall col :: 1 <= col <= MaxCol(sh) ==>
      (ColumnLetter(col) in m <==> |Samples(sh, h, col)| > 0)
    ensures forall col :: 1 <= col <= MaxCol(sh) && |Samples(sh, h, col)| > 0 ==>
      m[ColumnLetter(col)] == InferDataType(Samples(sh, h, col))
    ensures forall k :: k in m ==> exists col :: 1 <= col <= MaxCol(sh) && k == ColumnLetter(col)
  {
    forall col | 1 <= col <= MaxCol(sh)
      ensures ColumnLetter(col) in m <==> |Samples(sh, h, col)| > 0
      ensures |Samples(sh, h, col)| > 0 ==> m[ColumnLetter(col)] == InferDataType(Samples(sh, h, col))
    {
      assert LetterOf(col - 1) == ColumnLetter(col);
      TypeAtColumn(sh, h, col);
    }
    forall k | k in m
      ensures exists col :: 1 <= col <= MaxCol(sh) && k == ColumnLetter(col)
    {
      var j :| 0 <= j < |vals| && vals[j].Some? && k == LetterOf(j);
      assert k == ColumnLetter(j + 1);
    }
  }

  /** Every inferred column type is a real category, never "boolean". */
  lemma DataTypesAreCategories(sh: Sheet, headerRow: Option<nat>)
    requires WellFormed(sh)
    ensures forall k :: k in DetectDataTypes(sh, headerRow) ==>
      DetectDataTypes(sh, headerRow)[k] in {NumberType, DateType, TextType}
  {
    var m := DetectDataTypes(sh, headerRow);
    forall k | k in m
      ensures m[k] in {NumberType, DateType, TextType}
    {
      var col :| 1 <= col <= MaxCol(sh) && k == ColumnLetter(col);
      var h := headerRow.value;
      assert |Samples(sh, h, col)| > 0;
    }
  }

  // ----- cell positions, formulas, styles, hyperlinks -----

  datatype Pos = Pos(row: nat, col: nat)

  predicate InSheet(sh: Sheet, p: Pos) {
    WellFormed(sh) && 1 <= p.row <= MaxRow(sh) && 1 <= p.col <= MaxCol(sh)
  }

  function CellAt(sh: Sheet, p: Pos): Cell
    requires InSheet(sh, p)
  {
    sh.grid[p.row - 1][p.col - 1]
  }

  predicate RowMajorBefore(p: Pos, q: Pos) {
    p.row < q.row || (p.row == q.row && p.col < q.col)
  }

  predicate RowMajor(ps: seq<Pos>) {
    Pairwise(ps, RowMajorBefore)
  }

  /** Cells `c..cols` of row `r`. */
  function RowPositions(r: nat, c: nat, cols: nat): (ps: seq<Pos>)
    ensures forall p :: p in ps <==> p.row == r && c <= p.col <= cols
    ensures RowMajor(ps)
    decreases cols + 1 - c
  {
    if c > cols then []
    else
      var rest := RowPositions(r, c + 1, cols);
      PairwisePrepend(Pos(r, c), rest, RowMajorBefore);
      [Pos(r, c)] + rest
  }

  /** Rows `r..rows`, each left to right: the order of `iter_rows()`. */
  function GridPositions(r: nat, rows: nat, cols: nat): (ps: seq<Pos>)
    ensures forall p :: p in ps <==> r <= p.row <= rows && 1 <= p.col <= cols
    ensures RowMajor(ps)
    decreases rows + 1 - r
  {
    if r > rows then []
    else
      var first := RowPositions(r, 1, cols);
      var rest := GridPositions(r + 1, rows, cols);
      PairwiseAppend(first, rest, RowMajorBefore);
      first + rest
  }

  /** Every cell of the sheet, row by row. */
  function Positions(sh: Sheet): (ps: seq<Pos>)
    requires WellFormed(sh)
    ensures forall p :: p in ps <==> InSheet(sh, p)
    ensures RowMajor(ps)
  {
    GridPositions(1, MaxRow(sh), MaxCol(sh))
  }

  /** `CellInfo`. */
  datatype CellInfo = CellInfo(
    row: nat,
    column: nat,
    address: string,
    value: CellValue,
    cellType: CellType,
    style: CellStyle,
    formula: Option<string>,
    isMerged: bool,
    mergeRange: Option<string>)

  predicate IsFormulaAt(sh: Sheet, p: Pos) {
    InSheet(sh, p) && CellAt(sh, p).value.Formula?
  }

  /** The `CellInfo` `_extract_formulas` records for a formula cell. */
  function FormulaInfo(sh: Sheet, p: Pos): (info: CellInfo)
    requires IsFormulaAt(sh, p)
    ensures PosOf(info) == p
  {
    var cell := CellAt(sh, p);
    CellInfo(p.row, p.col, Coordinate(p.row, p.col), cell.value, FormulaCell,
             cell.style, Some(cell.value.text), false, None)
  }

  function PosOf(info: CellInfo): Pos {
    Pos(info.row, info.column)
  }

  /** The formula cells, row by row. */
  function FormulaPositions(sh: Sheet): (ps: seq<Pos>)
    requires WellFormed(sh)
    ensures forall i :: 0 <= i < |ps| ==> IsFormulaAt(sh, ps[i])
    ensures forall p :: IsFormulaAt(sh, p) ==> p in ps
    ensures RowMajor(ps)
  {
    var keep := p => IsFormulaAt(sh, p);
    FilterPairwise(Positions(sh), keep, RowMajorBefore);
    FilterKeeps(Positions(sh), keep);
    Filter(Positions(sh), keep)
  }

  /** `_extract_formulas`: one FORMULA record per formula cell, row by row,
      with `formula` equal to the cell's text. */
  function ExtractFormulas(sh: Sheet): (r: seq<CellInfo>)
    requires WellFormed(sh)
    ensures forall i :: 0 <= i < |r| ==>
      IsFormulaAt(sh, PosOf(r[i])) && r[i] == FormulaInfo(sh, PosOf(r[i]))
    ensures forall p :: IsFormulaAt(sh, p) ==> FormulaInfo(sh, p) in r
    ensures forall i, j :: 0 <= i < j < |r| ==> RowMajorBefore(PosOf(r[i]), PosOf(r[j]))
  {
    var ps := FormulaPositions(sh);
    var r := seq(|ps|, i requires 0 <= i < |ps| && IsFormulaAt(sh, ps[i]) => FormulaInfo(sh, ps[i]));
    FormulasListed(sh, ps, r);
    r
  }

  lemma FormulasListed(sh: Sheet, ps: seq<Pos>, r: seq<CellInfo>)
    requires forall i :: 0 <= i < |ps| ==> IsFormulaAt(sh, ps[i])
    requires forall p :: IsFormulaAt(sh, p) ==> p in ps
    requires RowMajor(ps)
    requires |r| == |ps| && forall i :: 0 <= i < |ps| ==> r[i] == FormulaInfo(sh, ps[i])
    ensures forall i :: 0 <= i < |r| ==>
      IsFormulaAt(sh, PosOf(r[i])) && r[i] == FormulaInfo(sh, PosOf(r[i]))
    ensures forall p :: IsFormulaAt(sh, p) ==> FormulaInfo(sh, p) in r
    ensures forall i, j :: 0 <= i < j < |r| ==> RowMajorBefore(PosOf(r[i]), PosOf(r[j]))
  {
    assert forall i :: 0 <= i < |r| ==> PosOf(r[i]) == ps[i];
    forall p | IsFormulaAt(sh, p)
      ensures FormulaInfo(sh, p) in r
    {
      var i :| 0 <= i < |ps| && ps[i] == p;
      assert r[i] == FormulaInfo(sh, p);
    }
  }

  predicate Truthy(o: Option<string>) {
    o.Some? && o.value != ""
  }

  /** `_has_custom_style`: bold or italic, a font size other than 11, a fill
      other than '00000000', any border side, or any alignment. */
  predicate HasCustomStyle(st: CellStyle) {
    || st.fontBold || st.fontItalic || st.fontSize != Some(11.0)
    || (st.fillColor.Some? && st.fillColor.value != "00000000")
    || st.borderStyle.Some?
    || Truthy(st.alignmentHorizontal) || Truthy(st.alignmentVertical)
  }

  /** openpyxl's style for an untouched cell: Calibri 11, no emphasis, the
      '00000000' fill, no border and no alignment. */
  const DefaultStyle := CellStyle(Some("Calibri"), Some(11.0), false, false, None,
                                  Some("00000000"), None, None, None, Some("General"))

  /** The default style is not custom, and changing any one of the attributes
      `_has_custom_style` looks at makes it custom. */
  lemma DefaultStyleIsPlain(size: real, fill: string, border: string, align: string)
    requires size != 11.0 && fill != "00000000" && align != ""
    ensures !HasCustomStyle(DefaultStyle)
    ensures HasCustomStyle(DefaultStyle.(fontBold := true))
    ensures HasCustomStyle(DefaultStyle.(fontItalic := true))
    ensures HasCustomStyle(DefaultStyle.(fontSize := Some(size)))
    ensures HasCustomStyle(DefaultStyle.(fillColor := Some(fill)))
    ensures HasCustomStyle(DefaultStyle.(borderStyle := Some(border)))
    ensures HasCustomStyle(DefaultStyle.(alignmentHorizontal := Some(align)))
    ensures HasCustomStyle(DefaultStyle.(alignmentVertical := Some(align)))
  {
  }

  /** Whether `_map_cell_styles` records the cell. */
  predicate Styled(sh: Sheet, p: Pos) {
    InSheet(sh, p) && (CellAt(sh, p).value != Empty || HasCustomStyle(CellAt(sh, p).style))
  }

  /** The dict assignments of `_map_cell_styles` over the cells `ps`, in order. */
  function StylesOver(sh: Sheet, ps: seq<Pos>): (m: map<string, CellStyle>)
    requires forall p :: p in ps ==> InSheet(sh, p)
    ensures forall p :: p in ps && Styled(sh, p) ==>
      Coordinate(p.row, p.col) in m && m[Coordinate(p.row, p.col)] == CellAt(sh, p).style
    ensures forall k :: k in m ==> exists p :: p in ps && Styled(sh, p) && k == Coordinate(p.row, p.col)
  {
    if |ps| == 0 then map[]
    else
      var init := ps[..|ps| - 1];
      var p := ps[|ps| - 1];
      assert ps == init + [p];
      var m := StylesOver(sh, init);
      StyleAssigned(sh, init, p, m);
      if Styled(sh, p) then m[Coordinate(p.row, p.col) := CellAt(sh, p).style] else m
  }

  /** One more cell of the loop: its assignment (if any) overwrites no other
      cell's entry, since coordinates are distinct. */
  lemma StyleAssigned(sh: Sheet, init: seq<Pos>, p: Pos, m: map<string, CellStyle>)
    requires InSheet(sh, p) && forall q :: q in init ==> InSheet(sh, q)
    requires forall q :: q in init && Styled(sh, q) ==>
      Coordinate(q.row, q.col) in m && m[Coordinate(q.row, q.col)] == CellAt(sh, q).style
    requires forall k :: k in m ==> exists q :: q in init && Styled(sh, q) && k == Coordinate(q.row, q.col)
    ensures var m' := if Styled(sh, p) then m[Coordinate(p.row, p.col) := CellAt(sh, p).style] else m;
      && (forall q :: q in init + [p] && Styled(sh, q) ==>
            Coordinate(q.row, q.col) in m' && m'[Coordinate(q.row, q.col)] == CellAt(sh, q).style)
      && (forall k :: k in m' ==> exists q :: q in init + [p] && Styled(sh, q) && k == Coordinate(q.row, q.col))
  {
    StyleKept(sh, init, p, m);
    StyleKeyFrom(sh, init, p, m);
  }

  lemma StyleKept(sh: Sheet, init: seq<Pos>, p: Pos, m: map<string, CellStyle>)
    requires InSheet(sh, p) && forall q :: q in init ==> InSheet(sh, q)
    requires forall q :: q in init && Styled(sh, q) ==>
      Coordinate(q.row, q.col) in m && m[Coordinate(q.row, q.col)] == CellAt(sh, q).style
    ensures var m' := if Styled(sh, p) then m[Coordinate(p.row, p.col) := CellAt(sh, p).style] else m;
      forall q :: q in init + [p] && Styled(sh, q) ==>
        Coordinate(q.row, q.col) in m' && m'[Coordinate(q.row, q.col)] == CellAt(sh, q).style
  {
    var m' := if Styled(sh, p) then m[Coordinate(p.row, p.col) := CellAt(sh, p).style] else m;
    forall q | q in init + [p] && Styled(sh, q)
      ensures Coordinate(q.row, q.col) in m' && m'[Coordinate(q.row, q.col)] == CellAt(sh, q).style
    {
      if q != p && Styled(sh, p) && Coordinate(q.row, q.col) == Coordinate(p.row, p.col) {
        CoordinateInjective(q.row, q.col, p.row, p.col);
      }
    }
  }

  lemma StyleKeyFrom(sh: Sheet, init: seq<Pos>, p: Pos, m: map<string, CellStyle>)
    requires InSheet(sh, p) && forall q :: q in init ==> InSheet(sh, q)
    requires forall k :: k in m ==> exists q :: q in init && Styled(sh, q) && k == Coordinate(q.row, q.col)
    ensures var m' := if Styled(sh, p) then m[Coordinate(p.row, p.col) := CellAt(sh, p).style] else m;
      forall k :: k in m' ==> exists q :: q in init + [p] && Styled(sh, q) && k == Coordinate(q.row, q.col)
  {
    var m' := if Styled(sh, p) then m[Coordinate(p.row, p.col) := CellAt(sh, p).style] else m;
    forall k | k in m'
      ensures exists q :: q in init + [p] && Styled(sh, q) && k == Coordinate(q.row, q.col)
    {
      if k in m {
        var q :| q in init && Styled(sh, q) && k == Coordinate(q.row, q.col);
        assert q in init + [p];
      } else {
        assert p in init + [p];
      }
    }
  }

  /** `_map_cell_styles`: keyed by coordinate, exactly the cells that hold a
      value or carry a custom style, each mapped to its own style. */
  function MapCellStyles(sh: Sheet): (m: map<string, CellStyle>)
    requires WellFormed(sh)
    ensures forall p :: Styled(sh, p) ==>
      Coordinate(p.row, p.col) in m && m[Coordinate(p.row, p.col)] == CellAt(sh, p).style
    ensures forall k :: k in m ==> exists p :: Styled(sh, p) && k == Coordinate(p.row, p.col)
  {
    StylesOver(sh, Positions(sh))
  }

  /** A cell with no value and the default style is not in the styles map. */
  lemma PlainEmptyCellUnstyled(sh: Sheet, p: Pos)
    requires InSheet(sh, p) && CellAt(sh, p).value == Empty && !HasCustomStyle(CellAt(sh, p).style)
    ensures Coordinate(p.row, p.col) !in MapCellStyles(sh)
  {
    var m := MapCellStyles(sh);
    forall q | Styled(sh, q)
      ensures Coordinate(q.row, q.col) != Coordinate(p.row, p.col)
    {
      if Coordinate(q.row, q.col) == Coordinate(p.row, p.col) {
        CoordinateInjective(q.row, q.col, p.row, p.col);
      }
    }
  }

  datatype HyperlinkInfo = HyperlinkInfo(cell: string, target: Option<string>)

  predicate HasLinkAt(sh: Sheet, p: Pos) {
    InSheet(sh, p) && CellAt(sh, p).hyperlink.Some?
  }

  function LinkInfo(sh: Sheet, p: Pos): HyperlinkInfo
    requires HasLinkAt(sh, p)
  {
    HyperlinkInfo(Coordinate(p.row, p.col), CellAt(sh, p).hyperlink.value.target)
  }

  /** The six lists of `_catalog_visual_elements`. */
  datatype VisualElements = VisualElements(
    charts: seq<string>,
    images: seq<string>,
    shapes: seq<string>,
    conditionalFormatting: seq<ConditionalFormat>,
    dataValidation: seq<DataValidation>,
    hyperlinks: seq<HyperlinkInfo>)
  {
    /** `sum(len(elements) for elements in visual_elements.values())` */
    function Count(): nat {
      |charts| + |images| + |shapes| + |conditionalFormatting| + |dataValidation| + |hyperlinks|
    }
  }

  /** The cells carrying a hyperlink, row by row. */
  function LinkedCells(sh: Sheet): (ps: seq<Pos>)
    requires WellFormed(sh)
    ensures forall p :: p in ps <==> HasLinkAt(sh, p)
    ensures RowMajor(ps)
  {
    var keep := p => HasLinkAt(sh, p);
    var ps := Filter(Positions(sh), keep);
    forall p ensures p in ps <==> HasLinkAt(sh, p) {
      FilterMembership(Positions(sh), keep, p);
    }
    FilterPairwise(Positions(sh), keep, RowMajorBefore);
    ps
  }

  /** `_catalog_visual_elements`: charts, images, conditional formats and data
      validations as the sheet lists them, no shapes, and one hyperlink record
      per linked cell, row by row. */
  function CatalogVisualElements(sh: Sheet): (v: VisualElements)
    requires WellFormed(sh)
    ensures v.shapes == []
    ensures v.charts == sh.charts && v.images == sh.images
    ensures v.conditionalFormatting == sh.conditionalFormats && v.dataValidation == sh.dataValidations
    ensures |v.hyperlinks| == |LinkedCells(sh)|
    ensures forall i :: 0 <= i < |v.hyperlinks| ==>
      HasLinkAt(sh, LinkedCells(sh)[i]) && v.hyperlinks[i] == LinkInfo(sh, LinkedCells(sh)[i])
    ensures v.Count() == |sh.charts| + |sh.images| + |sh.conditionalFormats|
                         + |sh.dataValidations| + |LinkedCells(sh)|
  {
    var ps := LinkedCells(sh);
    assert forall i :: 0 <= i < |ps| ==> ps[i] in ps;
    var links := seq(|ps|, i requires 0 <= i < |ps| => LinkInfo(sh, ps[i]));
    VisualElements(sh.charts, sh.images, [], sh.conditionalFormats, sh.dataValidations, links)
  }

  // ----- sheet and workbook -----

  /** `SheetAnalysis`. */
  datatype SheetAnalysis = SheetAnalysis(
    name: string,
    rowCount: nat,
    columnCount: nat,
    headers: seq<string>,
    headerRow: Option<nat>,
    dataRange: Option<string>,
    formulas: seq<CellInfo>,
    mergedCells: seq<string>,
    stylesMap: map<string, CellStyle>,
    visualElements: VisualElements,
    dataTypes: map<string, DataType>)

  /** f"A{start_row}:{get_column_letter(column_count)}{row_count}": the
      range from column A of the row below the header to the last cell. */
  function DataRange(sh: Sheet, headerRow: nat): (r: string)
    requires WellFormed(sh)
    ensures StartsWith(r, "A" + Decimal(headerRow + 1) + ":")
    ensures Split(r, ':') == [Coordinate(headerRow + 1, 1), Coordinate(MaxRow(sh), MaxCol(sh))]
  {
    var first := "A" + Decimal(headerRow + 1);
    var last := ColumnLetter(MaxCol(sh)) + Decimal(MaxRow(sh));
    assert ColumnLetter(1) == "A";
    CoordinateHasNoColon(headerRow + 1, 1);
    CoordinateHasNoColon(MaxRow(sh), MaxCol(sh));
    SplitAfterPart(first, last, ':');
    SplitWithoutSeparator(last, ':');
    assert first + [':'] + last == first + ":" + last;
    first + ":" + last
  }

  /** `_analyze_sheet`: the dimensions of the sheet, and a data range and
      column types only when a header row was found. */
  function AnalyzeSheet(sh: Sheet): (a: SheetAnalysis)
    requires WellFormed(sh)
    ensures a.name == sh.name && a.rowCount == MaxRow(sh) && a.columnCount == MaxCol(sh)
    ensures a.headerRow.None? ==> a.headers == [] && a.dataRange.None? && a.dataTypes == map[]
    ensures a.headerRow.Some? ==>
      a.dataRange.Some? && StartsWith(a.dataRange.value, "A" + Decimal(a.headerRow.value + 1) + ":")
    ensures a.headers == DetectHeaders(sh).0 && a.headerRow == DetectHeaders(sh).1
    ensures a.headerRow.Some? ==> a.dataRange == Some(DataRange(sh, a.headerRow.value))
    ensures a.formulas == ExtractFormulas(sh) && a.mergedCells == sh.mergedRanges
    ensures a.stylesMap == MapCellStyles(sh) && a.visualElements == CatalogVisualElements(sh)
    ensures a.dataTypes == DetectDataTypes(sh, a.headerRow)
  {
    var (headers, headerRow) := DetectHeaders(sh);
    var range := if headerRow.Some? then Some(DataRange(sh, headerRow.value)) else None;
    SheetAnalysis(sh.name, MaxRow(sh), MaxCol(sh), headers, headerRow, range,
                  ExtractFormulas(sh), sh.mergedRanges, MapCellStyles(sh),
                  CatalogVisualElements(sh), DetectDataTypes(sh, headerRow))
  }

  /** `SpreadsheetAnalysis`. */
  datatype SpreadsheetAnalysis = SpreadsheetAnalysis(
    spreadsheetInfo: Scanner.SpreadsheetInfo,
    sheets: seq<SheetAnalysis>,
    globalStyles: map<string, CellStyle>,
    hasFormulas: bool,
    hasMergedCells: bool,
    complexityScore: nat,
    analysisTimestamp: Option<string>)

  function TotalFormulas(s: seq<SheetAnalysis>): nat {
    if |s| == 0 then 0 else TotalFormulas(s[..|s| - 1]) + |s[|s| - 1].formulas|
  }

  function TotalMerged(s: seq<SheetAnalysis>): nat {
    if |s| == 0 then 0 else TotalMerged(s[..|s| - 1]) + |s[|s| - 1].mergedCells|
  }

  function TotalStyles(s: seq<SheetAnalysis>): nat {
    if |s| == 0 then 0 else TotalStyles(s[..|s| - 1]) + |s[|s| - 1].stylesMap|
  }

  /** The per-sheet visual points, each capped at 15. */
  function VisualPoints(s: seq<SheetAnalysis>): nat {
    if |s| == 0 then 0
    else VisualPoints(s[..|s| - 1]) + Min(2 * s[|s| - 1].visualElements.Count(), 15)
  }

  /** `_calculate_complexity_score`. */
  function ComplexityScore(s: seq<SheetAnalysis>): (score: nat)
    ensures score <= 100
  {
    Score(|s|, TotalFormulas(s), TotalMerged(s), VisualPoints(s), TotalStyles(s))
  }

  /** The capped sum of the score's five parts. */
  function Score(sheets: nat, formulas: nat, merged: nat, visual: nat, styles: nat): (score: nat)
    ensures score <= 100
  {
    var raw := Min(5 * sheets, 20) + Min(2 * formulas, 30) + Min(3 * merged, 20)
               + visual + Min(styles / 10, 15);
    Min(raw, 100)
  }

  lemma ScoreMonotone(s0: nat, f0: nat, m0: nat, v0: nat, t0: nat, s1: nat, f1: nat, m1: nat, v1: nat, t1: nat)
    requires s0 <= s1 && f0 <= f1 && m0 <= m1 && v0 <= v1 && t0 <= t1
    ensures Score(s0, f0, m0, v0, t0) <= Score(s1, f1, m1, v1, t1)
  {
    assert t0 / 10 <= t1 / 10;
  }

  /** Sheet `x` has no more formulas, merges, visual elements or styles than `y`. */
  predicate NoBusierThan(x: SheetAnalysis, y: SheetAnalysis) {
    && |x.formulas| <= |y.formulas|
    && |x.mergedCells| <= |y.mergedCells|
    && x.visualElements.Count() <= y.visualElements.Count()
    && |x.stylesMap| <= |y.stylesMap|
  }

  lemma {:induction false} TotalsMonotone(a: seq<SheetAnalysis>, b: seq<SheetAnalysis>)
    requires |a| == |b| && forall i :: 0 <= i < |a| ==> NoBusierThan(a[i], b[i])
    ensures TotalFormulas(a) <= TotalFormulas(b)
    ensures TotalMerged(a) <= TotalMerged(b)
    ensures TotalStyles(a) <= TotalStyles(b)
    ensures VisualPoints(a) <= VisualPoints(b)
  {
    if |a| > 0 {
      var n := |a| - 1;
      TotalsMonotone(a[..n], b[..n]);
      assert NoBusierThan(a[n], b[n]);
    }
  }

  /** The score never drops when any sheet gains formulas, merges, visual
      elements or styles. */
  lemma ComplexityMonotone(a: seq<SheetAnalysis>, b: seq<SheetAnalysis>)
    requires |a| == |b| && forall i :: 0 <= i < |a| ==> NoBusierThan(a[i], b[i])
    ensures ComplexityScore(a) <= ComplexityScore(b)
  {
    TotalsMonotone(a, b);
    ScoreMonotone(|a|, TotalFormulas(a), TotalMerged(a), VisualPoints(a), TotalStyles(a),
                  |b|, TotalFormulas(b), TotalMerged(b), VisualPoints(b), TotalStyles(b));
  }

  /** Nor when a sheet is added. */
  lemma ComplexityGrowsWithSheets(a: seq<SheetAnalysis>, s: SheetAnalysis)
    ensures ComplexityScore(a) <= ComplexityScore(a + [s])
  {
    var b := a + [s];
    assert b[..|a|] == a;
    ScoreMonotone(|a|, TotalFormulas(a), TotalMerged(a), VisualPoints(a), TotalStyles(a),
                  |b|, TotalFormulas(b), TotalMerged(b), VisualPoints(b), TotalStyles(b));
  }

  /** The loop of `analyze_spreadsheet` that raises the two flags. */
  function RaiseFlags(s: seq<SheetAnalysis>): (flags: (bool, bool))
    ensures flags.0 <==> exists i :: 0 <= i < |s| && |s[i].formulas| > 0
    ensures flags.1 <==> exists i :: 0 <= i < |s| && |s[i].mergedCells| > 0
  {
    if |s| == 0 then (false, false)
    else
      var init := s[..|s| - 1];
      var last := s[|s| - 1];
      var prior := RaiseFlags(init);
      assert forall i :: 0 <= i < |init| ==> init[i] == s[i];
      (prior.0 || |last.formulas| > 0, prior.1 || |last.mergedCells| > 0)
  }

  function AnalyzeSheets(sheets: seq<Sheet>): (r: seq<SheetAnalysis>)
    requires forall i :: 0 <= i < |sheets| ==> WellFormed(sheets[i])
    ensures |r| == |sheets|
    ensures forall i :: 0 <= i < |r| ==> r[i] == AnalyzeSheet(sheets[i])
  {
    seq(|sheets|, i requires 0 <= i < |sheets| => AnalyzeSheet(sheets[i]))
  }

  /** `_extract_global_styles`: the first sheet's styles map, or nothing. */
  function GlobalStyles(s: seq<SheetAnalysis>): map<string, CellStyle> {
    if |s| > 0 then s[0].stylesMap else map[]
  }

  /** The workbook-level fields `analyze_spreadsheet` fills in from the sheet
      analyses: the two flags, the capped score, the first sheet's styles and
      the timestamp. */
  function Summarize(info: Scanner.SpreadsheetInfo, analyses: seq<SheetAnalysis>, now: string)
    : (a: SpreadsheetAnalysis)
    ensures a.spreadsheetInfo == info && a.sheets == analyses
    ensures a.hasFormulas <==> exists i :: 0 <= i < |analyses| && |analyses[i].formulas| > 0
    ensures a.hasMergedCells <==> exists i :: 0 <= i < |analyses| && |analyses[i].mergedCells| > 0
    ensures a.complexityScore == ComplexityScore(analyses) <= 100
    ensures |analyses| > 0 ==> a.globalStyles == analyses[0].stylesMap
    ensures |analyses| == 0 ==> a.globalStyles == map[]
    ensures a.analysisTimestamp == Some(now)
  {
    var flags := RaiseFlags(analyses);
    SpreadsheetAnalysis(info, analyses, GlobalStyles(analyses), flags.0, flags.1,
                        ComplexityScore(analyses), Some(now))
  }

  /** `analyze_spreadsheet`. `workbook` is what `load_workbook` returns, or the
      error it raises; `now` is `pd.Timestamp.now().isoformat()`. */
  function AnalyzeSpreadsheet(info: Scanner.SpreadsheetInfo, workbook: Result<seq<Sheet>>, now: string)
    : (r: Result<SpreadsheetAnalysis>)
    requires workbook.Success? ==> forall i :: 0 <= i < |workbook.value| ==> WellFormed(workbook.value[i])
    ensures workbook.Failure? ==> r == Failure("Falha na análise: " + workbook.error)
    ensures workbook.Success? ==> r.Success? && |r.value.sheets| == |workbook.value|
  {
    match workbook
    case Failure(e) => Failure("Falha na análise: " + e)
    case Success(sheets) => Success(Summarize(info, AnalyzeSheets(sheets), now))
  }

  /** Each sheet of the workbook is analysed in order, and the global styles
      are the first sheet's styles map. */
  lemma AnalysesFollowSheets(info: Scanner.SpreadsheetInfo, sheets: seq<Sheet>, now: string, i: nat)
    requires forall k :: 0 <= k < |sheets| ==> WellFormed(sheets[k])
    requires i < |sheets|
    ensures var a := AnalyzeSpreadsheet(info, Success(sheets), now).value;
      && a.sheets[i] == AnalyzeSheet(sheets[i])
      && a.sheets[i].name == sheets[i].name
      && a.globalStyles == MapCellStyles(sheets[0])
  {
    var analyses := AnalyzeSheets(sheets);
    assert analyses[0] == AnalyzeSheet(sheets[0]);
  }
}
