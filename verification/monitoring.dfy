/** File snapshots, their comparison and the watched-file bookkeeping of
    src/core/monitoring.py. Snapshots are values taken elsewhere; times are
    instants in microseconds. */
module Monitoring {
  import opened Wrappers

  datatype ChangeType = Created | Modified | Deleted | Moved | ContentChanged | MetadataChanged

  /** `FileSnapshot` (its capture time and metadata aside). `contentHash` is
      the MD5 hex digest, or "" when hashing failed. */
  datatype Snapshot = Snapshot(
    path: string,
    present: bool,
    size: Option<int>,
    modifiedTime: Option<int>,
    contentHash: Option<string>,
    permissions: Option<string>)

  /** Python truthiness of an optional hash: None and "" are both false. */
  predicate HasHash(s: Snapshot) {
    s.contentHash.Some? && s.contentHash.value != ""
  }

  predicate HashesDiffer(a: Snapshot, b: Snapshot) {
    HasHash(a) && HasHash(b) && a.contentHash.value != b.contentHash.value
  }

  predicate MetadataDiffers(a: Snapshot, b: Snapshot) {
    a.size != b.size || a.modifiedTime != b.modifiedTime || a.permissions != b.permissions
  }

  /** `before.compare_with(after)`: a list of at most one change. */
  function CompareWith(before: Snapshot, after: Snapshot): (r: seq<ChangeType>)
    ensures |r| <= 1
    ensures Created in r <==> !before.present && after.present
    ensures Deleted in r <==> before.present && !after.present
    ensures ContentChanged in r <==> before.present && after.present && HashesDiffer(before, after)
    ensures MetadataChanged in r <==> before.present && after.present && !HashesDiffer(before, after) && MetadataDiffers(before, after)
    ensures Modified !in r && Moved !in r
    ensures !before.present && !after.present ==> r == []
  {
    if !before.present && after.present then [Created]
    else if before.present && !after.present then [Deleted]
    else if before.present && after.present then
      if HashesDiffer(before, after) then [ContentChanged]
      else if MetadataDiffers(before, after) then [MetadataChanged]
      else []
    else []
  }

  /** A snapshot compared with itself reports nothing. */
  lemma SelfCompareIsEmpty(s: Snapshot)
    ensures CompareWith(s, s) == []
  {
  }

  /** A failed hash ("") counts as no hash at all. */
  lemma EmptyHashIsNoHash(before: Snapshot, after: Snapshot)
    ensures CompareWith(before.(contentHash := Some("")), after) == CompareWith(before.(contentHash := None), after)
    ensures CompareWith(before, after.(contentHash := Some(""))) == CompareWith(before, after.(contentHash := None))
  {
  }

  function Opposite(c: ChangeType): ChangeType {
    match c
    case Created => Deleted
    case Deleted => Created
    case other => other
  }

  /** Comparing the other way round swaps creation and deletion and keeps the rest. */
  lemma {:induction false} CompareSwapped(a: Snapshot, b: Snapshot)
    ensures |CompareWith(b, a)| == |CompareWith(a, b)|
    ensures forall i :: 0 <= i < |CompareWith(a, b)| ==> CompareWith(b, a)[i] == Opposite(CompareWith(a, b)[i])
  {
    assert HashesDiffer(a, b) == HashesDiffer(b, a);
    assert MetadataDiffers(a, b) == MetadataDiffers(b, a);
  }

  /** The watched-file part of `FileMonitor`: snapshots by path and the
      `files_monitored` statistic. */
  datatype Monitor = Monitor(watched: map<string, Snapshot>, filesMonitored: nat)

  predicate Consistent(m: Monitor) {
    m.filesMonitored == |m.watched|
  }

  function NewMonitor(): (m: Monitor)
    ensures Consistent(m) && m.watched == map[]
  {
    Monitor(map[], 0)
  }

  /** `add_file(path)` with the snapshot taken of it: the path is watched with
      that snapshot (replacing an older one) and the count is refreshed. */
  function AddFile(m: Monitor, path: string, snap: Snapshot): (m': Monitor)
    ensures Consistent(m')
    ensures path in m'.watched && m'.watched[path] == snap
    ensures forall p :: p in m.watched && p != path ==> p in m'.watched && m'.watched[p] == m.watched[p]
    ensures forall p :: p in m'.watched ==> p == path || p in m.watched
    ensures Consistent(m) ==> m'.filesMonitored == m.filesMonitored + (if path in m.watched then 0 else 1)
  {
    var w := m.watched[path := snap];
    Monitor(w, |w|)
  }

  /** `remove_file(path)`: an unwatched path changes nothing. */
  function RemoveFile(m: Monitor, path: string): (m': Monitor)
    ensures path !in m.watched ==> m' == m
    ensures path in m.watched ==> Consistent(m') && m'.watched == m.watched - {path}
    ensures Consistent(m) ==> Consistent(m')
    ensures Consistent(m) && path in m.watched ==> m'.filesMonitored == m.filesMonitored - 1
  {
    if path in m.watched then
      var w := m.watched - {path};
      Monitor(w, |w|)
    else m
  }

  datatype Op = Add(path: string, snap: Snapshot) | Remove(path: string)

  function Apply(m: Monitor, ops: seq<Op>): Monitor
    decreases |ops|
  {
    if |ops| == 0 then m
    else
      var next := match ops[0]
        case Add(p, s) => AddFile(m, p, s)
        case Remove(p) => RemoveFile(m, p);
      Apply(next, ops[1..])
  }

  /** Any sequence of additions and removals keeps `files_monitored` equal to
      the number of watched files. */
  lemma {:induction false} BookkeepingHolds(m: Monitor, ops: seq<Op>)
    requires Consistent(m)
    ensures Consistent(Apply(m, ops))
    decreases |ops|
  {
    if |ops| > 0 {
      var next := match ops[0]
        case Add(p, s) => AddFile(m, p, s)
        case Remove(p) => RemoveFile(m, p);
      BookkeepingHolds(next, ops[1..]);
    }
  }
}
