/** The bookkeeping of src/core/backup.py: backup ids, the JSON form of the
    metadata and its round trip, the newest-first listing, retention by
    count, the statistics, the integrity check and the active-backup map.
    Zipping, hashing and the directory of metadata files are inputs. */
module Backups {
  import opened Wrappers
  import opened Text
  import opened DateTimes
  import opened Seqs

  datatype BackupType = Full | Incremental | Differential | SnapshotBackup

  /** `BackupType.value`. */
  function TypeValue(t: BackupType): string {
    match t
    case Full => "full"
    case Incremental => "incremental"
    case Differential => "differential"
    case SnapshotBackup => "snapshot"
  }

  /** `BackupType(value)`, which raises on an unknown value. */
  function ParseType(s: string): (r: Result<BackupType>)
    ensures r.Success? ==> TypeValue(r.value) == s
    ensures forall t :: s == TypeValue(t) ==> r == Success(t)
  {
    if s == "full" then Success(Full)
    else if s == "incremental" then Success(Incremental)
    else if s == "differential" then Success(Differential)
    else if s == "snapshot" then Success(SnapshotBackup)
    else Failure("'" + s + "' is not a valid BackupType")
  }

  datatype BackupStatus = Pending | InProgress | Completed | Failed | Cancelled

  function StatusValue(s: BackupStatus): string {
    match s
    case Pending => "pending"
    case InProgress => "in_progress"
    case Completed => "completed"
    case Failed => "failed"
    case Cancelled => "cancelled"
  }

  function ParseStatus(s: string): (r: Result<BackupStatus>)
    ensures r.Success? ==> StatusValue(r.value) == s
    ensures forall t :: s == StatusValue(t) ==> r == Success(t)
  {
    if s == "pending" then Success(Pending)
    else if s == "in_progress" then Success(InProgress)
    else if s == "completed" then Success(Completed)
    else if s == "failed" then Success(Failed)
    else if s == "cancelled" then Success(Cancelled)
    else Failure("'" + s + "' is not a valid BackupStatus")
  }

  /** `BackupMetadata` (its free-form `metadata` dict aside). */
  datatype Metadata = Metadata(
    backupId: string,
    backupType: BackupType,
    timestamp: DateTime,
    sourcePath: string,
    backupPath: string,
    fileCount: int,
    totalSize: int,
    compressedSize: int,
    duration: real,
    status: BackupStatus,
    checksum: Option<string>,
    parentBackupId: Option<string>,
    filesIncluded: seq<string>)

  /** The JSON values the metadata file holds. */
  datatype Json = JString(s: string) | JInt(i: int) | JReal(r: real) | JNull | JStrings(items: seq<string>)

  /** The keys `to_dict` writes; `KeyName` is how each is spelled in the file. */
  datatype Key =
    | BackupIdKey | BackupTypeKey | TimestampKey | SourcePathKey | BackupPathKey | FileCountKey
    | TotalSizeKey | CompressedSizeKey | DurationKey | StatusKey | ChecksumKey | ParentKey | FilesKey

  function KeyName(k: Key): string {
    match k
    case BackupIdKey => "backup_id"
    case BackupTypeKey => "backup_type"
    case TimestampKey => "timestamp"
    case SourcePathKey => "source_path"
    case BackupPathKey => "backup_path"
    case FileCountKey => "file_count"
    case TotalSizeKey => "total_size"
    case CompressedSizeKey => "compressed_size"
    case DurationKey => "duration"
    case StatusKey => "status"
    case ChecksumKey => "checksum"
    case ParentKey => "parent_backup_id"
    case FilesKey => "files_included"
  }

  /** A loaded metadata file, indexed by the key each entry is spelled as. */
  type Dict = map<Key, Json>

  function OptionalString(o: Option<string>): Json {
    match o
    case Some(s) => JString(s)
    case None => JNull
  }

  /** `BackupMetadata.to_dict`. */
  function ToDict(m: Metadata): Dict
    requires Valid(m.timestamp)
  {
    Encode(m, IsoFormat(m.timestamp))
  }

  /** The dictionary `to_dict` writes, given the timestamp's ISO text: every
      key, each holding its field. */
  function Encode(m: Metadata, stampText: string): Dict {
    map k: Key | k in AllKeys :: Field(m, stampText, k)
  }

  const AllKeys: set<Key> := {
    BackupIdKey, BackupTypeKey, TimestampKey, SourcePathKey, BackupPathKey, FileCountKey,
    TotalSizeKey, CompressedSizeKey, DurationKey, StatusKey, ChecksumKey, ParentKey, FilesKey}

  /** The value `to_dict` writes under `k`. */
  function Field(m: Metadata, stampText: string, k: Key): Json {
    match k
    case BackupIdKey => JString(m.backupId)
    case BackupTypeKey => JString(TypeValue(m.backupType))
    case TimestampKey => JString(stampText)
    case SourcePathKey => JString(m.sourcePath)
    case BackupPathKey => JString(m.backupPath)
    case FileCountKey => JInt(m.fileCount)
    case TotalSizeKey => JInt(m.totalSize)
    case CompressedSizeKey => JInt(m.compressedSize)
    case DurationKey => JReal(m.duration)
    case StatusKey => JString(StatusValue(m.status))
    case ChecksumKey => OptionalString(m.checksum)
    case ParentKey => OptionalString(m.parentBackupId)
    case FilesKey => JStrings(m.filesIncluded)
  }

  /** `data[key]` for a string field. */
  function Required(d: Dict, key: Key): (r: Result<string>)
    ensures key in d && d[key].JString? ==> r == Success(d[key].s)
    ensures r.Success? ==> key in d && d[key] == JString(r.value)
  {
    if key !in d then Failure("KeyError: '" + KeyName(key) + "'")
    else match d[key]
      case JString(s) => Success(s)
      case _ => Failure("unexpected value for '" + KeyName(key) + "'")
  }

  /** `data.get(key, default)` for an integer field. */
  function IntOr(d: Dict, key: Key, default: int): (r: Result<int>)
    ensures key !in d ==> r == Success(default)
    ensures key in d && d[key].JInt? ==> r == Success(d[key].i)
  {
    if key !in d then Success(default)
    else match d[key]
      case JInt(i) => Success(i)
      case _ => Failure("unexpected value for '" + KeyName(key) + "'")
  }

  /** `data.get(key, 0.0)`; a JSON integer reads as its value. */
  function RealOr(d: Dict, key: Key, default: real): (r: Result<real>)
    ensures key !in d ==> r == Success(default)
    ensures key in d && d[key].JReal? ==> r == Success(d[key].r)
  {
    if key !in d then Success(default)
    else match d[key]
      case JReal(x) => Success(x)
      case JInt(i) => Success(i as real)
      case _ => Failure("unexpected value for '" + KeyName(key) + "'")
  }

  /** `data.get(key)` for an optional string: absent and null are both None. */
  function OptionalOf(d: Dict, key: Key): (r: Result<Option<string>>)
    ensures key !in d || d[key] == JNull ==> r == Success(None)
    ensures key in d && d[key].JString? ==> r == Success(Some(d[key].s))
  {
    if key !in d then Success(None)
    else match d[key]
      case JNull => Success(None)
      case JString(s) => Success(Some(s))
      case _ => Failure("unexpected value for '" + KeyName(key) + "'")
  }

  function StringsOr(d: Dict, key: Key): (r: Result<seq<string>>)
    ensures key !in d ==> r == Success([])
    ensures key in d && d[key].JStrings? ==> r == Success(d[key].items)
  {
    if key !in d then Success([])
    else match d[key]
      case JStrings(l) => Success(l)
      case _ => Failure("unexpected value for '" + KeyName(key) + "'")
  }

  /** The identifying part of the metadata, which `from_dict` requires. */
  datatype Head = Head(id: string, kind: BackupType, stamp: DateTime, source: string, target: string)

  /** The part `from_dict` reads with defaults. */
  datatype Details = Details(
    fileCount: int, totalSize: int, compressedSize: int, duration: real,
    status: BackupStatus, checksum: Option<string>, parent: Option<string>, included: seq<string>)

  function DecodeHead(d: Dict): (r: Result<Head>)
    ensures r.Success? ==> Valid(r.value.stamp)
    ensures r.Success? ==> BackupIdKey in d && d[BackupIdKey] == JString(r.value.id)
    ensures r.Success? ==> SourcePathKey in d && d[SourcePathKey] == JString(r.value.source)
    ensures r.Success? ==> BackupPathKey in d && d[BackupPathKey] == JString(r.value.target)
    ensures r.Success? ==> BackupTypeKey in d && d[BackupTypeKey] == JString(TypeValue(r.value.kind))
    ensures r.Success? ==> TimestampKey in d && d[TimestampKey].JString? && ParseIso(d[TimestampKey].s) == Some(r.value.stamp)
    ensures (|| BackupIdKey !in d || BackupTypeKey !in d || TimestampKey !in d
             || SourcePathKey !in d || BackupPathKey !in d) ==> r.Failure?
  {
    var id :- Required(d, BackupIdKey);
    var typeText :- Required(d, BackupTypeKey);
    var kind :- ParseType(typeText);
    var stampText :- Required(d, TimestampKey);
    var stamp :- match ParseIso(stampText)
      case Some(t) => Success(t)
      case None => Failure("Invalid isoformat string: '" + stampText + "'");
    var source :- Required(d, SourcePathKey);
    var target :- Required(d, BackupPathKey);
    Success(Head(id, kind, stamp, source, target))
  }

  function DecodeDetails(d: Dict): Result<Details> {
    var files :- IntOr(d, FileCountKey, 0);
    var total :- IntOr(d, TotalSizeKey, 0);
    var compressed :- IntOr(d, CompressedSizeKey, 0);
    var duration :- RealOr(d, DurationKey, 0.0);
    var statusText :- if StatusKey in d then Required(d, StatusKey) else Success("pending");
    var status :- ParseStatus(statusText);
    var checksum :- OptionalOf(d, ChecksumKey);
    var parent :- OptionalOf(d, ParentKey);
    var included :- StringsOr(d, FilesKey);
    Success(Details(files, total, compressed, duration, status, checksum, parent, included))
  }

  /** `BackupMetadata.from_dict`: the five identifying fields are required,
      the others default as `data.get` says, and the enum values and the
      ISO timestamp must parse. */
  function FromDict(d: Dict): (r: Result<Metadata>)
    ensures r.Success? ==> Valid(r.value.timestamp)
    ensures (|| BackupIdKey !in d || BackupTypeKey !in d || TimestampKey !in d
             || SourcePathKey !in d || BackupPathKey !in d) ==> r.Failure?
    ensures r.Success? ==> BackupIdKey in d && d[BackupIdKey] == JString(r.value.backupId)
    ensures r.Success? ==> SourcePathKey in d && d[SourcePathKey] == JString(r.value.sourcePath)
    ensures r.Success? ==> BackupPathKey in d && d[BackupPathKey] == JString(r.value.backupPath)
  {
    var h :- DecodeHead(d);
    var t :- DecodeDetails(d);
    Success(Metadata(h.id, h.kind, h.stamp, h.source, h.target, t.fileCount, t.totalSize,
                     t.compressedSize, t.duration, t.status, t.checksum, t.parent, t.included))
  }

  lemma HeadRoundTrip(m: Metadata, stampText: string)
    requires ParseIso(stampText) == Some(m.timestamp)
    ensures DecodeHead(Encode(m, stampText)) == Success(Head(m.backupId, m.backupType, m.timestamp, m.sourcePath, m.backupPath))
  {
    var d := Encode(m, stampText);
    assert Required(d, BackupIdKey) == Success(m.backupId);
    assert Required(d, BackupTypeKey) == Success(TypeValue(m.backupType));
    assert ParseType(TypeValue(m.backupType)) == Success(m.backupType);
    assert Required(d, TimestampKey) == Success(stampText);
    assert Required(d, SourcePathKey) == Success(m.sourcePath);
    assert Required(d, BackupPathKey) == Success(m.backupPath);
  }

  lemma DetailsRoundTrip(m: Metadata, stampText: string)
    ensures DecodeDetails(Encode(m, stampText)) == Success(Details(m.fileCount, m.totalSize, m.compressedSize, m.duration,
                                                                  m.status, m.checksum, m.parentBackupId, m.filesIncluded))
  {
    var d := Encode(m, stampText);
    assert IntOr(d, FileCountKey, 0) == Success(m.fileCount);
    assert IntOr(d, TotalSizeKey, 0) == Success(m.totalSize);
    assert IntOr(d, CompressedSizeKey, 0) == Success(m.compressedSize);
    assert RealOr(d, DurationKey, 0.0) == Success(m.duration);
    assert Required(d, StatusKey) == Success(StatusValue(m.status));
    assert OptionalOf(d, ChecksumKey) == Success(m.checksum);
    assert OptionalOf(d, ParentKey) == Success(m.parentBackupId);
    assert StringsOr(d, FilesKey) == Success(m.filesIncluded);
  }

  /** `from_dict(to_dict(m))` gives `m` back, field by field. */
  lemma DictRoundTrip(m: Metadata)
    requires Valid(m.timestamp)
    ensures FromDict(ToDict(m)) == Success(m)
  {
    var stampText := IsoFormat(m.timestamp);
    IsoRoundTrip(m.timestamp);
    HeadRoundTrip(m, stampText);
    DetailsRoundTrip(m, stampText);
  }

  /** No two keys are spelled alike, so the file's string keys and `Key` agree. */
  lemma KeyNamesDistinct(a: Key, b: Key)
    requires KeyName(a) == KeyName(b)
    ensures a == b
  {
  }

  /** `_generate_backup_id`: the given name (when non-empty) or the source's
      file name, then "_" and the timestamp as "%Y%m%d_%H%M%S". */
  function GenerateBackupId(sourcePath: string, timestamp: DateTime, backupName: Option<string>): (id: string)
    requires Valid(timestamp)
    ensures var base := if backupName.Some? && backupName.value != "" then backupName.value else BaseName(sourcePath);
      && |base| < |id|
      && id[..|base|] == base
      && id[|base|] == '_'
      && (timestamp.year >= 1000 ==> |id| == |base| + 16 && CompactSpells(id[|base| + 1..], timestamp))
  {
    var base := if backupName.Some? && backupName.value != "" then backupName.value else BaseName(sourcePath);
    var tail := "_" + CompactStamp(timestamp);
    ConcatParts(base, tail);
    assert (base + tail)[|base| + 1..] == CompactStamp(timestamp);
    assert timestamp.year >= 1000 ==> CompactSpells(CompactStamp(timestamp), timestamp) by {
      if timestamp.year >= 1000 {
        CompactStampSpells(timestamp);
      }
    }
    base + tail
  }

  /** Two backups of the same name taken in different seconds (four-digit
      years) get different ids. */
  lemma BackupIdsDiffer(sourcePath: string, a: DateTime, b: DateTime, backupName: Option<string>)
    requires Valid(a) && Valid(b) && a.year >= 1000 && b.year >= 1000
    requires TruncateToSecond(a) != TruncateToSecond(b)
    ensures GenerateBackupId(sourcePath, a, backupName) != GenerateBackupId(sourcePath, b, backupName)
  {
  }

  // ----- listing -----

  /** The sort key: the instant of the timestamp. */
  function Age(m: Metadata): int {
    if Valid(m.timestamp) then Instant(m.timestamp) else 0
  }

  function Loaded(files: seq<Result<Dict>>): (r: seq<Metadata>)
    ensures forall i :: 0 <= i < |r| ==> Valid(r[i].timestamp)
  {
    if |files| == 0 then []
    else
      var rest := Loaded(files[1..]);
      match files[0]
      case Success(d) =>
        (match FromDict(d)
         case Success(m) => [m] + rest
         case Failure(_) => rest)
      case Failure(_) => rest
  }

  function FromSource(source: Option<string>): Metadata -> bool {
    (m: Metadata) => source.None? || m.sourcePath == source.value
  }

  /** `list_backups(source_path)` over the metadata files of the backup
      directory, each the parsed JSON or the error reading it: unreadable or
      malformed files are skipped, the rest filtered by source and sorted
      newest first. */
  function ListBackups(files: seq<Result<Dict>>, source: Option<string>): (r: seq<Metadata>)
    ensures SortedDesc(r, Age)
    ensures multiset(r) == multiset(Filter(Loaded(files), FromSource(source)))
    ensures forall m :: m in r ==> m in Loaded(files) && (source.Some? ==> m.sourcePath == source.value)
    ensures forall i :: 0 <= i < |r| ==> Valid(r[i].timestamp)
  {
    var kept := Filter(Loaded(files), FromSource(source));
    var r := SortDesc(kept, Age);
    forall m | m in r
      ensures m in Loaded(files) && (source.Some? ==> m.sourcePath == source.value)
    {
      assert m in multiset(kept);
      FilterMembership(Loaded(files), FromSource(source), m);
    }
    forall i | 0 <= i < |r|
      ensures Valid(r[i].timestamp)
    {
      assert r[i] in multiset(kept);
      FilterMembership(Loaded(files), FromSource(source), r[i]);
    }
    r
  }

  /** Newest first: no listed backup is newer than an earlier one, in
      Python's own datetime order. */
  lemma ListedNewestFirst(files: seq<Result<Dict>>, source: Option<string>, i: nat, j: nat)
    requires i < j < |ListBackups(files, source)|
    ensures !Before(ListBackups(files, source)[i].timestamp, ListBackups(files, source)[j].timestamp)
  {
    var r := ListBackups(files, source);
    BeforeIffInstant(r[i].timestamp, r[j].timestamp);
  }

  // ----- retention by count -----

  /** Python's `s[k:]`, negative `k` counting from the end. */
  function SliceFrom<T>(s: seq<T>, k: int): (r: seq<T>)
    ensures 0 <= k <= |s| ==> r == s[k..]
    ensures k > |s| ==> r == []
    ensures k < 0 && -k <= |s| ==> r == s[|s| + k..]
    ensures k < 0 && -k > |s| ==> r == s
  {
    if k >= 0 then (if k <= |s| then s[k..] else [])
    else if -k <= |s| then s[|s| + k..] else s
  }

  function Ids(s: seq<Metadata>): (r: seq<string>)
    ensures |r| == |s| && forall i :: 0 <= i < |s| ==> r[i] == s[i].backupId
  {
    if |s| == 0 then [] else [s[0].backupId] + Ids(s[1..])
  }

  /** `_cleanup_old_backups`: the ids passed to `delete_backup`. Nothing when
      there are at most `max_backups`; otherwise everything after the newest
      `max_backups` (a negative setting slices from the end). */
  function CleanupOldBackups(files: seq<Result<Dict>>, maxBackups: int): (deleted: seq<string>)
    ensures |ListBackups(files, None)| <= maxBackups ==> deleted == []
    ensures 0 <= maxBackups < |ListBackups(files, None)| ==>
      deleted == Ids(ListBackups(files, None)[maxBackups..])
    ensures maxBackups >= 0 ==> |deleted| == if |ListBackups(files, None)| > maxBackups then |ListBackups(files, None)| - maxBackups else 0
  {
    var backups := ListBackups(files, None);
    if |backups| <= maxBackups then [] else Ids(SliceFrom(backups, maxBackups))
  }

  /** Retention keeps the newest: every deleted backup is no newer than every
      kept one. */
  lemma CleanupKeepsNewest(files: seq<Result<Dict>>, maxBackups: nat, kept: nat, gone: nat)
    requires kept < maxBackups <= gone < |ListBackups(files, None)|
    ensures Age(ListBackups(files, None)[gone]) <= Age(ListBackups(files, None)[kept])
    ensures CleanupOldBackups(files, maxBackups)[gone - maxBackups] == ListBackups(files, None)[gone].backupId
  {
  }

  // ----- statistics -----

  function HasType(t: BackupType): Metadata -> bool {
    (m: Metadata) => m.backupType == t
  }

  function CountType(s: seq<Metadata>, t: BackupType): nat {
    |Filter(s, HasType(t))|
  }

  function SumCompressed(s: seq<Metadata>): int {
    if |s| == 0 then 0 else s[0].compressedSize + SumCompressed(s[1..])
  }

  function SumFiles(s: seq<Metadata>): int {
    if |s| == 0 then 0 else s[0].fileCount + SumFiles(s[1..])
  }

  /** `get_backup_stats` (the float size in MB and the directory aside);
      `byType` is keyed by type, spelled `TypeValue` in the result. */
  datatype Stats = Stats(
    totalBackups: nat,
    totalSizeBytes: int,
    totalFiles: int,
    byType: map<BackupType, nat>,
    oldest: Option<string>,
    newest: Option<string>)

  function GetBackupStats(files: seq<Result<Dict>>): (st: Stats)
    ensures var b := ListBackups(files, None);
      && st.totalBackups == |b|
      && st.totalSizeBytes == SumCompressed(b)
      && st.totalFiles == SumFiles(b)
      && (forall t: BackupType :: t in st.byType && st.byType[t] == CountType(b, t))
      && st.byType[Full] + st.byType[Incremental] + st.byType[Differential] + st.byType[SnapshotBackup] == st.totalBackups
    ensures var b := ListBackups(files, None);
      && (b == [] <==> st.newest.None?) && (b == [] <==> st.oldest.None?)
      && (b != [] ==> st.newest == Some(IsoFormat(b[0].timestamp)) && st.oldest == Some(IsoFormat(b[|b| - 1].timestamp)))
  {
    StatsOf(ListBackups(files, None))
  }

  /** The statistics of an already listed (newest first) run of backups. */
  function StatsOf(b: seq<Metadata>): (st: Stats)
    requires forall i :: 0 <= i < |b| ==> Valid(b[i].timestamp)
    ensures st.totalBackups == |b|
    ensures st.totalSizeBytes == SumCompressed(b)
    ensures st.totalFiles == SumFiles(b)
    ensures forall t: BackupType :: t in st.byType && st.byType[t] == CountType(b, t)
    ensures st.byType[Full] + st.byType[Incremental] + st.byType[Differential] + st.byType[SnapshotBackup] == st.totalBackups
    ensures b == [] <==> st.newest.None?
    ensures b == [] <==> st.oldest.None?
    ensures b != [] ==> st.newest == Some(IsoFormat(b[0].timestamp)) && st.oldest == Some(IsoFormat(b[|b| - 1].timestamp))
  {
    TypeCountsCover(b);
    var byType := map t: BackupType | true :: CountType(b, t);
    Stats(|b|, SumCompressed(b), SumFiles(b), byType,
          if b == [] then None else Some(IsoFormat(b[|b| - 1].timestamp)),
          if b == [] then None else Some(IsoFormat(b[0].timestamp)))
  }

  /** Every backup has exactly one of the four types. */
  lemma {:induction false} TypeCountsCover(s: seq<Metadata>)
    ensures CountType(s, Full) + CountType(s, Incremental) + CountType(s, Differential) + CountType(s, SnapshotBackup) == |s|
  {
    if |s| > 0 {
      TypeCountsCover(s[1..]);
    }
  }

  /** The newest and oldest entries bound every listed backup. */
  lemma StatsBoundAll(files: seq<Result<Dict>>, m: Metadata)
    requires m in ListBackups(files, None)
    ensures var b := ListBackups(files, None);
      Age(b[|b| - 1]) <= Age(m) <= Age(b[0])
  {
    var b := ListBackups(files, None);
    var i :| 0 <= i < |b| && b[i] == m;
    assert SortedDesc(b, Age);
    if i > 0 { assert Age(b[0]) >= Age(b[i]); }
    if i < |b| - 1 { assert Age(b[i]) >= Age(b[|b| - 1]); }
  }

  // ----- integrity -----

  /** `_verify_backup_integrity`, given the checksum recomputed from the
      archive (or the error raised reading it): no stored checksum (None or
      "") passes; otherwise it passes iff the two agree. */
  function VerifyIntegrity(m: Metadata, current: Result<string>): (ok: bool)
    ensures m.checksum.None? || m.checksum.value == "" ==> ok
    ensures m.checksum.Some? && m.checksum.value != "" ==>
      (ok <==> current.Success? && current.value == m.checksum.value)
  {
    if m.checksum.None? || m.checksum.value == "" then true
    else match current
      case Success(c) => c == m.checksum.value
      case Failure(_) => false
  }

  // ----- active backups -----

  /** `create_backup` around the work it delegates, with the `BackupError`
      it evidently means to raise (see `CreateBackupAsWritten` for the code as
      it stands): a missing source fails before anything is registered;
      otherwise the id is registered while `run` (the archive, the metadata
      file and the clean-up) happens, and is removed from the active map
      whether it succeeded or failed. */
  function CreateBackup(active: map<string, Metadata>, sourceExists: bool, m: Metadata, run: Result<Metadata>)
    : (res: (map<string, Metadata>, Result<Metadata>))
    ensures !sourceExists ==> res.0 == active && res.1.Failure?
    ensures sourceExists ==> res.0 == active - {m.backupId}
    ensures m.backupId !in active ==> res.0 == active
    ensures sourceExists && run.Success? ==> res.1 == run
    ensures sourceExists && run.Failure? ==> res.1 == Failure("Falha no backup: " + run.error)
  {
    if !sourceExists then (active, Failure("Caminho não existe: " + m.sourcePath))
    else
      var registered := active[m.backupId := m];
      assert m.backupId in registered;
      var after := registered - {m.backupId};
      (after, if run.Success? then run else Failure("Falha no backup: " + run.error))
  }

  /** The TypeError Python raises for `BackupError(message)`:
      `BackupError.__init__` takes a backup path and the error details. */
  const BackupErrorArity := "BackupError.__init__() " + "missing 1 required positional argument: 'error_details'"

  /** `create_backup` as written: both of its `raise BackupError(...)` calls
      pass one argument, so a missing source and a failed run each end in the
      TypeError of constructing the exception. The active map is handled as in
      `CreateBackup`, the `finally` clause still running. */
  function CreateBackupAsWritten(active: map<string, Metadata>, sourceExists: bool, m: Metadata, run: Result<Metadata>)
    : (res: (map<string, Metadata>, Result<Metadata>))
    ensures !sourceExists ==> res.0 == active
    ensures sourceExists ==> res.0 == active - {m.backupId}
    ensures res.1.Success? <==> sourceExists && run.Success?
    ensures sourceExists && run.Success? ==> res.1 == run
    ensures res.1.Failure? ==> res.1.error == BackupErrorArity
  {
    if !sourceExists then (active, Failure(BackupErrorArity))
    else
      var after := active[m.backupId := m] - {m.backupId};
      (after, if run.Success? then run else Failure(BackupErrorArity))
  }

  /** Every failure of `create_backup` surfaces as the arity TypeError rather
      than the intended message: for a run that fails with "disk full", the
      corrected model reports "Falha no backup: disk full". */
  lemma BackupErrorNeverBuilt(active: map<string, Metadata>, sourceExists: bool, m: Metadata, run: Result<Metadata>)
    requires !(sourceExists && run.Success?)
    ensures CreateBackupAsWritten(active, sourceExists, m, run).1 == Failure(BackupErrorArity)
    ensures CreateBackup(active, sourceExists, m, run).1.Failure?
    ensures CreateBackup(active, sourceExists, m, run).1.error != BackupErrorArity
    ensures sourceExists && run == Failure("disk full") ==>
      CreateBackup(active, sourceExists, m, run).1 == Failure("Falha no backup: disk full")
  {
    assert BackupErrorArity[0] == 'B';
    if !sourceExists {
      var e := "Caminho não existe: " + m.sourcePath;
      assert CreateBackup(active, sourceExists, m, run).1.error == e && e[0] == 'C';
    } else {
      var e := "Falha no backup: " + run.error;
      assert CreateBackup(active, sourceExists, m, run).1.error == e && e[0] == 'F';
    }
  }
}
