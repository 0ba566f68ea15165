/** The master-workbook backups of src/sync/backup_manager.py: the file name
    of a backup, the date read back from it, the newest-first listing, the
    age-based clean-up, the statistics and the choice of the master file.
    Directory listings, file sizes and the clock are inputs. */
module SyncBackups {
  import opened Wrappers
  import opened Text
  import opened DateTimes
  import opened Seqs

  const Planilha := "planilha"
  const Consolidada := "consolidada"

  /** "_planilha_consolidada.xlsx" */
  const BackupSuffix := ['_'] + Planilha + ['_'] + Consolidada + ".xlsx"

  lemma WordsClean()
    ensures '_' !in Planilha && '.' !in Planilha
    ensures '_' !in Consolidada && '.' !in Consolidada && '_' !in Consolidada + ".xlsx"
  {
  }

  /** `_generate_backup_filename` at instant `now`:
      "YYYY-MM-DD_HH-MM-SS_planilha_consolidada.xlsx". */
  function GenerateBackupFilename(now: DateTime): (name: string)
    requires Valid(now)
    ensures EndsWith(name, BackupSuffix)
  {
    var name := FileStamp(now) + BackupSuffix;
    assert name[|name| - |BackupSuffix|..] == BackupSuffix;
    name
  }

  /** The stamp is a date and a time joined by '_', with neither '_' nor '.' inside. */
  lemma FileStampHalves(d: DateTime) returns (date: string, time: string)
    requires Valid(d)
    ensures FileStamp(d) == date + ['_'] + time
    ensures '_' !in date && '_' !in time && '.' !in date && '.' !in time
  {
    var y, mo, dd := Decimal(d.year), Pad2(d.month), Pad2(d.day);
    var h, mi, se := Pad2(d.hour), Pad2(d.minute), Pad2(d.second);
    date := y + "-" + mo + "-" + dd;
    time := h + "-" + mi + "-" + se;
    DigitsExclude(y, '_'); DigitsExclude(mo, '_'); DigitsExclude(dd, '_');
    DigitsExclude(h, '_'); DigitsExclude(mi, '_'); DigitsExclude(se, '_');
    DigitsExclude(y, '.'); DigitsExclude(mo, '.'); DigitsExclude(dd, '.');
    DigitsExclude(h, '.'); DigitsExclude(mi, '.'); DigitsExclude(se, '.');
  }

  /** A generated name splits on '_' into four parts, the third "planilha". */
  lemma {:induction false} FilenameParts(now: DateTime)
    requires Valid(now)
    ensures var parts := Split(GenerateBackupFilename(now), '_');
      && |parts| == 4
      && parts[0] + "_" + parts[1] == FileStamp(now)
      && parts[2] == Planilha && parts[3] == Consolidada + ".xlsx"
  {
    var date, time := FileStampHalves(now);
    var name := GenerateBackupFilename(now);
    var last := Consolidada + ".xlsx";
    WordsClean();
    assert name == date + ['_'] + (time + ['_'] + (Planilha + ['_'] + last));
    SplitWithoutSeparator(last, '_');
    SplitAfterPart(Planilha, last, '_');
    SplitAfterPart(time, Planilha + ['_'] + last, '_');
    SplitAfterPart(date, time + ['_'] + (Planilha + ['_'] + last), '_');
  }

  /** The text `list_backups` and `_cleanup_old_backups` parse: the first two
      '_' fields of the name's stem, or nothing when there are fewer than two
      (the IndexError they skip on). */
  function DatePart(name: string): (r: Option<string>)
    ensures r.Some? ==> |Split(Stem(name), '_')| >= 2
  {
    var parts := Split(Stem(name), '_');
    if |parts| < 2 then None else Some(parts[0] + "_" + parts[1])
  }

  /** The date a backup's name carries, or None when it does not parse. */
  function FileDate(name: string): (r: Option<DateTime>)
    ensures r.Some? ==> Valid(r.value) && r.value.microsecond == 0
  {
    match DatePart(name)
    case None => None
    case Some(p) => ParseStamp(p)
  }

  lemma LastDot(a: string)
    requires '.' !in a
    ensures LastIndexOf(a + ".xlsx", '.') == |a|
  {
    var s := a + ".xlsx";
    assert s[|a|] == '.';
    assert forall j :: |a| < j < |s| ==> s[j] != '.';
  }

  /** Reading the date back from a generated name recovers the moment it was
      generated, to the second (for four-digit years, the ones `strptime`'s
      "%Y" reads). */
  lemma {:induction false} FilenameRoundTrip(now: DateTime)
    requires Valid(now) && now.year >= 1000
    ensures FileDate(GenerateBackupFilename(now)) == Some(TruncateToSecond(now))
  {
    var date, time := FileStampHalves(now);
    var name := GenerateBackupFilename(now);
    WordsClean();
    var stem := date + ['_'] + (time + ['_'] + (Planilha + ['_'] + Consolidada));
    assert name == stem + ".xlsx";
    assert '.' !in stem;
    LastDot(stem);
    assert Stem(name) == stem;
    SplitWithoutSeparator(Consolidada, '_');
    SplitAfterPart(Planilha, Consolidada, '_');
    SplitAfterPart(time, Planilha + ['_'] + Consolidada, '_');
    SplitAfterPart(date, time + ['_'] + (Planilha + ['_'] + Consolidada), '_');
    assert DatePart(name) == Some(FileStamp(now));
    FileStampRoundTrip(now);
  }

  // ----- listing -----

  /** Matched by `glob('*_planilha_consolidada.xlsx')`. */
  predicate IsBackupName(name: string) {
    EndsWith(name, BackupSuffix)
  }

  /** The backups whose date parses, in directory order. */
  function Dated(names: seq<string>): (r: seq<(string, DateTime)>)
    ensures forall i :: 0 <= i < |r| ==> Valid(r[i].1)
    ensures forall e :: e in r <==> e.0 in names && IsBackupName(e.0) && FileDate(e.0) == Some(e.1)
  {
    if |names| == 0 then []
    else
      var rest := Dated(names[1..]);
      var n := names[0];
      if IsBackupName(n) && FileDate(n).Some? then [(n, FileDate(n).value)] + rest else rest
  }

  function EntryAge(e: (string, DateTime)): int {
    if Valid(e.1) then Instant(e.1) else 0
  }

  /** `list_backups`: every backup whose name parses, with its date, newest
      first; the others are skipped. */
  function ListBackups(names: seq<string>): (r: seq<(string, DateTime)>)
    ensures SortedDesc(r, EntryAge)
    ensures multiset(r) == multiset(Dated(names))
    ensures forall e :: e in r <==> e.0 in names && IsBackupName(e.0) && FileDate(e.0) == Some(e.1)
  {
    var d := Dated(names);
    var r := SortDesc(d, EntryAge);
    assert forall e :: e in r <==> e in multiset(d);
    r
  }

  /** A generated backup in the folder is listed under its own date. */
  lemma GeneratedIsListed(names: seq<string>, now: DateTime)
    requires Valid(now) && now.year >= 1000 && GenerateBackupFilename(now) in names
    ensures (GenerateBackupFilename(now), TruncateToSecond(now)) in ListBackups(names)
  {
    FilenameRoundTrip(now);
  }

  // ----- clean-up by age -----

  /** The cut-off `now - timedelta(days=retention)` as an instant, or None
      when the subtraction leaves the datetime range (OverflowError, which
      ends the clean-up before anything is removed). */
  function Cutoff(now: DateTime, retentionDays: int): (c: Option<int>)
    requires Valid(now)
    ensures c.Some? ==> MinInstant <= c.value <= MaxInstant && c.value == Instant(now) - retentionDays * DayMicros
    ensures c.None? <==> !(MinInstant <= Instant(now) - retentionDays * DayMicros <= MaxInstant)
  {
    var c := Instant(now) - retentionDays * DayMicros;
    if MinInstant <= c <= MaxInstant then Some(c) else None
  }

  function OlderThan(cutoff: int): string -> bool {
    (n: string) => IsBackupName(n) && FileDate(n).Some? && Instant(FileDate(n).value) < cutoff
  }

  /** `_cleanup_old_backups`: the names removed, in directory order: exactly
      the backups whose date parses and lies strictly before the cut-off. */
  function CleanupOldBackups(names: seq<string>, now: DateTime, retentionDays: int): (removed: seq<string>)
    requires Valid(now)
    ensures Cutoff(now, retentionDays).None? ==> removed == []
    ensures Cutoff(now, retentionDays).Some? ==>
      forall n :: n in removed <==>
        n in names && IsBackupName(n) && FileDate(n).Some? && Instant(FileDate(n).value) < Cutoff(now, retentionDays).value
  {
    match Cutoff(now, retentionDays)
    case None => []
    case Some(c) =>
      var r := Filter(names, OlderThan(c));
      forall n ensures n in r <==> n in names && OlderThan(c)(n) {
        FilterMembership(names, OlderThan(c), n);
      }
      r
  }

  /** A backup generated no earlier than the cut-off survives the clean-up. */
  lemma RecentBackupKept(names: seq<string>, made: DateTime, now: DateTime, retentionDays: int)
    requires Valid(made) && made.year >= 1000 && Valid(now)
    requires Cutoff(now, retentionDays).Some? && Instant(TruncateToSecond(made)) >= Cutoff(now, retentionDays).value
    ensures GenerateBackupFilename(made) !in CleanupOldBackups(names, now, retentionDays)
  {
    FilenameRoundTrip(made);
  }

  /** `file_date < cutoff_date` is the instant comparison the model uses. */
  lemma CutoffIsDatetimeOrder(d: DateTime, cutoffDate: DateTime)
    requires Valid(d) && Valid(cutoffDate)
    ensures Before(d, cutoffDate) <==> Instant(d) < Instant(cutoffDate)
  {
    BeforeIffInstant(d, cutoffDate);
  }

  // ----- statistics -----

  /** The statistics dict, the size total in bytes instead of rounded
      megabytes. */
  datatype Statistics = Statistics(totalBackups: nat, oldest: Option<string>, newest: Option<string>, totalBytes: nat)

  /** `sum(backup[0].stat().st_size for backup in backups)`, with
      `sizeOf(n)` the size `stat` reports for `n`, or None when it raises. */
  function SizeSum(entries: seq<(string, DateTime)>, sizeOf: string -> Option<nat>): (total: Option<nat>)
    ensures total.None? <==> exists i :: 0 <= i < |entries| && sizeOf(entries[i].0).None?
    ensures total.Some? && |entries| > 0 ==> sizeOf(entries[0].0).value <= total.value
  {
    if |entries| == 0 then Some(0)
    else
      var rest := SizeSum(entries[1..], sizeOf);
      assert forall i :: 1 <= i < |entries| ==> entries[i] == entries[1..][i - 1];
      match sizeOf(entries[0].0)
      case None => None
      case Some(n) => if rest.None? then None else Some(n + rest.value)
  }

  /** `get_backup_statistics`, the size total in bytes instead of rounded
      megabytes; None is the empty dict returned when a `stat` raises. */
  function GetBackupStatistics(names: seq<string>, sizeOf: string -> Option<nat>): (st: Option<Statistics>)
    ensures var b := ListBackups(names);
      && (b == [] ==> st == Some(Statistics(0, None, None, 0)))
      && (b != [] ==> (st.None? <==> exists i :: 0 <= i < |b| && sizeOf(b[i].0).None?))
      && (b != [] && st.Some? ==>
            && st.value.totalBackups == |b|
            && st.value.newest == Some(DisplayStamp(b[0].1))
            && st.value.oldest == Some(DisplayStamp(b[|b| - 1].1))
            && Some(st.value.totalBytes) == SizeSum(b, sizeOf))
  {
    var b := ListBackups(names);
    if b == [] then Some(Statistics(0, None, None, 0))
    else
      var total := SizeSum(b, sizeOf);
      if total.None? then None
      else Some(Statistics(|b|, Some(DisplayStamp(b[|b| - 1].1)), Some(DisplayStamp(b[0].1)), total.value))
  }

  /** The newest entry is no older, and the oldest no newer, than any listed backup. */
  lemma StatisticsBound(names: seq<string>, e: (string, DateTime))
    requires e in ListBackups(names)
    ensures var b := ListBackups(names);
      EntryAge(b[|b| - 1]) <= EntryAge(e) <= EntryAge(b[0])
  {
    var b := ListBackups(names);
    var i :| 0 <= i < |b| && b[i] == e;
    if i > 0 { assert EntryAge(b[0]) >= EntryAge(b[i]); }
    if i < |b| - 1 { assert EntryAge(b[i]) >= EntryAge(b[|b| - 1]); }
  }

  // ----- master file -----

  predicate IsXlsx(name: string) {
    EndsWith(name, ".xlsx")
  }

  /** `_get_master_file_path` over the master folder's listing: the
      configured file when it exists as a file, otherwise the first ".xlsx"
      entry the listing yields, otherwise None. */
  function GetMasterFilePath(configured: string, configuredIsFile: bool, listing: seq<string>): (r: Option<string>)
    ensures configuredIsFile ==> r == Some(configured)
    ensures !configuredIsFile ==> (r.Some? <==> exists i :: 0 <= i < |listing| && IsXlsx(listing[i]))
    ensures !configuredIsFile && r.Some? ==>
      exists i :: 0 <= i < |listing| && r.value == listing[i] && IsXlsx(listing[i])
                  && forall j :: 0 <= j < i ==> !IsXlsx(listing[j])
  {
    if configuredIsFile then Some(configured)
    else
      var i := FirstFrom(listing, IsXlsx, 0);
      if i < |listing| then Some(listing[i]) else None
  }
}
