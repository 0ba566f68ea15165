/** The spreadsheet scanner's name rules (src/spreadsheet/scanner.py): which
    file names count as Excel workbooks, which are skipped as hidden or
    temporary, and the path de-duplication of `get_all_spreadsheets`. The
    directory walk and `stat` are inputs. */
module Scanner {
  import opened Wrappers
  import opened Text
  import opened DateTimes
  import opened Seqs

  const SupportedExtensions: set<string> := {".xlsx", ".xls"}

  datatype SpreadsheetInfo = SpreadsheetInfo(
    name: string,
    path: string,
    size: nat,
    modifiedDate: DateTime,
    extension: string,
    isValid: bool,
    errorMessage: Option<string>)

  /** What `path.stat()` yields, or the error it raises. */
  datatype FileStat = FileStat(size: nat, modified: DateTime)

  /** `SpreadsheetInfo.is_excel`. */
  predicate IsExcel(info: SpreadsheetInfo) {
    Lower(info.extension) in SupportedExtensions
  }

  /** `_is_excel_file` and the suffix test of `filter_spreadsheets`:
      `Path(p).suffix.lower()` is ".xlsx" or ".xls". */
  predicate IsExcelFile(p: string) {
    Lower(Suffix(BaseName(p))) in SupportedExtensions
  }

  predicate EndsWithIgnoringCase(s: string, suffix: string) {
    |suffix| <= |s| && Lower(s[|s| - |suffix|..]) == suffix
  }

  lemma LowerNoDot(s: string, t: string)
    requires Lower(s) == t && '.' !in t
    ensures '.' !in s
  {
    forall k | 0 <= k < |s|
      ensures s[k] != '.'
    {
      assert t[k] != '.';
    }
  }

  predicate HasExcelExtension(b: string) {
    (|b| > 5 && EndsWithIgnoringCase(b, ".xlsx")) || (|b| > 4 && EndsWithIgnoringCase(b, ".xls"))
  }

  /** A file is an Excel file exactly when its base name ends, ignoring case,
      with ".xlsx" or ".xls" and something precedes that dot: ".xlsx" alone is
      a hidden file without suffix, and "report" has none. */
  lemma {:induction false} IsExcelFileIffExtension(p: string)
    ensures IsExcelFile(p) <==> HasExcelExtension(BaseName(p))
  {
    var b := BaseName(p);
    if IsExcelFile(p) {
      SuffixIsExtension(b);
    }
    if |b| > 5 && EndsWithIgnoringCase(b, ".xlsx") {
      ExtensionIsSuffix(b, ".xlsx");
    }
    if |b| > 4 && EndsWithIgnoringCase(b, ".xls") {
      ExtensionIsSuffix(b, ".xls");
    }
  }

  /** A supported suffix is an ending of the name with something before it. */
  lemma SuffixIsExtension(b: string)
    requires Lower(Suffix(b)) in SupportedExtensions
    ensures HasExcelExtension(b)
  {
    var i := LastIndexOf(b, '.');
    var e := Suffix(b);
    assert |Lower(e)| == |e|;
    assert e == b[i..] && 0 < i;
    assert b[|b| - |e|..] == e;
  }

  /** When the name ends with ".ext" (ext without dots) after at least one
      character, that ending is the path suffix. */
  lemma ExtensionIsSuffix(b: string, ext: string)
    requires |ext| >= 2 && ext[0] == '.' && '.' !in ext[1..]
    requires |b| > |ext| && EndsWithIgnoringCase(b, ext)
    ensures Suffix(b) == b[|b| - |ext|..]
  {
    var k := |b| - |ext|;
    var tail := b[k..];
    assert Lower(tail)[0] == '.';
    assert b[k] == '.';
    LowerNoDot(tail[1..], ext[1..]) by {
      assert Lower(tail[1..]) == Lower(tail)[1..];
    }
    forall j | k < j < |b|
      ensures b[j] != '.'
    {
      assert b[j] == tail[1..][j - k - 1];
    }
    var i := LastIndexOf(b, '.');
    assert i == k;
  }

  /** `_analyze_file`: hidden names (leading '.') and temporary names (leading
      '~' or a stem ending in '~') are skipped, then anything that is not an
      Excel file; a failing `stat` is skipped too. */
  function AnalyzeFile(path: string, stat: Result<FileStat>): (r: Option<SpreadsheetInfo>)
    ensures r.Some? ==> IsExcel(r.value) && IsExcelFile(path) && r.value.isValid
    ensures r.Some? ==> r.value.path == path && r.value.name == BaseName(path)
                        && r.value.extension == Lower(Suffix(BaseName(path)))
    ensures StartsWith(BaseName(path), ".") ==> r.None?
    ensures StartsWith(BaseName(path), "~") || EndsWith(Stem(BaseName(path)), "~") ==> r.None?
    ensures !StartsWith(BaseName(path), ".") && !StartsWith(BaseName(path), "~")
            && !EndsWith(Stem(BaseName(path)), "~") && IsExcelFile(path) && stat.Success?
            ==> r.Some? && r.value.size == stat.value.size
                && r.value.modifiedDate == stat.value.modified && r.value.errorMessage == None
  {
    var name := BaseName(path);
    if StartsWith(name, ".") then None
    else if StartsWith(name, "~") || EndsWith(Stem(name), "~") then None
    else if Lower(Suffix(name)) !in SupportedExtensions then None
    else if stat.Failure? then None
    else
      var ext := Lower(Suffix(name));
      LowerIdempotent(Suffix(name));
      Some(SpreadsheetInfo(name, path, stat.value.size, stat.value.modified, ext, true, None))
  }

  lemma LowerIdempotent(s: string)
    ensures Lower(Lower(s)) == Lower(s)
  {
  }

  /** `is_excel` does not depend on the extension's case: an info and its
      lower-cased copy agree. */
  lemma IsExcelIgnoresCase(info: SpreadsheetInfo)
    ensures IsExcel(info) <==> IsExcel(info.(extension := Lower(info.extension)))
  {
    LowerIdempotent(info.extension);
  }

  /** `filter_spreadsheets`: the Excel paths, in input order. */
  function FilterSpreadsheets(files: seq<string>): (r: seq<string>)
    ensures forall x :: x in r <==> x in files && IsExcelFile(x)
  {
    var r := Filter(files, IsExcelFile);
    forall x
      ensures x in r <==> x in files && IsExcelFile(x)
    {
      FilterMembership(files, IsExcelFile, x);
    }
    r
  }

  /** The filter keeps input order (it distributes over concatenation) and is
      idempotent. */
  lemma FilterSpreadsheetsOrder(a: seq<string>, b: seq<string>)
    ensures FilterSpreadsheets(a + b) == FilterSpreadsheets(a) + FilterSpreadsheets(b)
    ensures FilterSpreadsheets(FilterSpreadsheets(a)) == FilterSpreadsheets(a)
  {
    FilterAppend(a, b, IsExcelFile);
    FilterIdempotent(a, IsExcelFile);
  }

  /** `_analyze_file` on one found path and its `stat`. */
  function Analyze(f: (string, Result<FileStat>)): Option<SpreadsheetInfo> {
    AnalyzeFile(f.0, f.1)
  }

  /** A found path that `_analyze_file` turns into information. */
  predicate Accepted(f: (string, Result<FileStat>)) {
    Analyze(f).Some?
  }

  /** `scan_with_pattern` after the glob: every found path through
      `_analyze_file`, keeping the ones that yield information. Exactly the
      accepted paths give an entry, in the order they were found. */
  function ScanFound(found: seq<(string, Result<FileStat>)>): (r: seq<SpreadsheetInfo>)
    ensures |r| == |Filter(found, Accepted)| <= |found|
    ensures forall i :: 0 <= i < |r| ==> Analyze(Filter(found, Accepted)[i]) == Some(r[i])
  {
    Somes(found, Analyze, Accepted)
  }

  /** Every entry of the scan is an Excel workbook marked valid, found under
      its own path. */
  lemma ScannedAreExcel(found: seq<(string, Result<FileStat>)>)
    ensures forall x :: x in ScanFound(found) ==>
      IsExcel(x) && x.isValid && IsExcelFile(x.path) && exists k :: 0 <= k < |found| && found[k].0 == x.path
  {
    var r := ScanFound(found);
    var acc := Filter(found, Accepted);
    forall x | x in r
      ensures IsExcel(x) && x.isValid && IsExcelFile(x.path)
      ensures exists k :: 0 <= k < |found| && found[k].0 == x.path
    {
      var i :| 0 <= i < |r| && r[i] == x;
      assert Analyze(acc[i]) == Some(x);
      FilterMembership(found, Accepted, acc[i]);
      var k :| 0 <= k < |found| && found[k] == acc[i];
    }
  }

  function PathsOf(s: seq<SpreadsheetInfo>): set<string> {
    set x | x in s :: x.path
  }

  predicate NoDuplicatePaths(s: seq<SpreadsheetInfo>) {
    forall i, j :: 0 <= i < j < |s| ==> s[i].path != s[j].path
  }

  /** The first entry for each path, in order: what the `seen_paths` loop of
      `get_all_spreadsheets` keeps. */
  function FirstOccurrences(s: seq<SpreadsheetInfo>): seq<SpreadsheetInfo> {
    if |s| == 0 then []
    else
      var kept := FirstOccurrences(s[..|s| - 1]);
      var last := s[|s| - 1];
      if last.path in PathsOf(kept) then kept else kept + [last]
  }

  /** Every kept entry comes from the input, and no path is lost. */
  lemma {:induction false} FirstOccurrencesPaths(s: seq<SpreadsheetInfo>)
    ensures forall x :: x in FirstOccurrences(s) ==> x in s
    ensures PathsOf(FirstOccurrences(s)) == PathsOf(s)
  {
    if |s| > 0 {
      var p := s[..|s| - 1];
      FirstOccurrencesPaths(p);
      assert s == p + [s[|s| - 1]];
      assert PathsOf(s) == PathsOf(p) + {s[|s| - 1].path};
    }
  }

  /** No path is kept twice. */
  lemma {:induction false} FirstOccurrencesUnique(s: seq<SpreadsheetInfo>)
    ensures NoDuplicatePaths(FirstOccurrences(s))
  {
    if |s| > 0 {
      var p := s[..|s| - 1];
      var last := s[|s| - 1];
      FirstOccurrencesUnique(p);
      var kept := FirstOccurrences(p);
      if last.path !in PathsOf(kept) {
        var u := kept + [last];
        forall i, j | 0 <= i < j < |u|
          ensures u[i].path != u[j].path
        {
          if j == |u| - 1 {
            assert u[i] in kept;
          }
        }
      }
    }
  }

  /** Each kept entry is the first entry of the input with its path. */
  lemma {:induction false} FirstOccurrencesFirst(s: seq<SpreadsheetInfo>)
    ensures forall x :: x in FirstOccurrences(s) ==>
      exists i :: 0 <= i < |s| && s[i] == x && forall j :: 0 <= j < i ==> s[j].path != x.path
  {
    if |s| > 0 {
      var p := s[..|s| - 1];
      var last := s[|s| - 1];
      FirstOccurrencesFirst(p);
      FirstOccurrencesPaths(p);
      var kept := FirstOccurrences(p);
      forall x | x in FirstOccurrences(s)
        ensures exists i :: 0 <= i < |s| && s[i] == x && forall j :: 0 <= j < i ==> s[j].path != x.path
      {
        if x in kept {
          var i :| 0 <= i < |p| && p[i] == x && forall j :: 0 <= j < i ==> p[j].path != x.path;
          assert s[i] == x;
        } else {
          assert x == last && last.path !in PathsOf(p);
          forall j | 0 <= j < |s| - 1
            ensures s[j].path != x.path
          {
            assert s[j] in p;
          }
          assert s[|s| - 1] == x;
        }
      }
    }
  }

  /** What the de-duplication promises: no path twice, no path lost, and each
      kept entry is the first one with its path. */
  lemma FirstOccurrencesSpec(s: seq<SpreadsheetInfo>)
    ensures NoDuplicatePaths(FirstOccurrences(s))
    ensures PathsOf(FirstOccurrences(s)) == PathsOf(s)
    ensures forall x :: x in FirstOccurrences(s) ==>
      exists i :: 0 <= i < |s| && s[i] == x && forall j :: 0 <= j < i ==> s[j].path != x.path
  {
    FirstOccurrencesPaths(s);
    FirstOccurrencesUnique(s);
    FirstOccurrencesFirst(s);
  }

  /** The `seen_paths` loop itself. */
  method Deduplicate(all: seq<SpreadsheetInfo>) returns (unique: seq<SpreadsheetInfo>)
    ensures unique == FirstOccurrences(all)
    ensures NoDuplicatePaths(unique) && PathsOf(unique) == PathsOf(all)
  {
    unique := [];
    var seen: set<string> := {};
    for i := 0 to |all|
      invariant unique == FirstOccurrences(all[..i])
      invariant seen == PathsOf(unique)
    {
      assert all[..i + 1][..i] == all[..i];
      if all[i].path !in seen {
        unique := unique + [all[i]];
        seen := seen + {all[i].path};
      }
    }
    assert all[..|all|] == all;
    FirstOccurrencesSpec(all);
  }

  function Flatten(batches: seq<seq<SpreadsheetInfo>>): seq<SpreadsheetInfo> {
    if |batches| == 0 then [] else batches[0] + Flatten(batches[1..])
  }

  /** `get_all_spreadsheets`: one scan per supported extension, in the order
      Python's set yields them, concatenated and de-duplicated by path. */
  method GetAllSpreadsheets(batches: seq<seq<SpreadsheetInfo>>) returns (r: seq<SpreadsheetInfo>)
    ensures r == FirstOccurrences(Flatten(batches))
    ensures NoDuplicatePaths(r)
    ensures PathsOf(r) == PathsOf(Flatten(batches))
    ensures forall x :: x in r ==> x in Flatten(batches)
  {
    r := Deduplicate(Flatten(batches));
    FirstOccurrencesPaths(Flatten(batches));
  }
}
