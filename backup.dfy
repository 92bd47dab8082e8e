/**
 * The backup record of a batch: where it is placed, what it holds, and how
 * the `read-backup` handler and the full revert read it back.
 */
module Backup {
  import opened Wrappers
  import opened Paths
  import opened Errors
  import opened Json
  import opened Fs
  import opened Plans

  datatype BackupItem = BackupItem(from: Path, to: Path)

  datatype BackupRecord = BackupRecord(version: int, createdAt: string, items: seq<BackupItem>)

  const FormatVersion: int := 1
  const FilePrefix: string := ".smart-renamer-backup-"
  const FileSuffix: string := ".json"

  /**
   * The backup's file name, given the already sanitised timestamp: the stamp
   * can be read back from between the fixed prefix and suffix, and a stamp
   * without a separator gives a plain file name.
   */
  function FileName(stamp: string): (n: string)
    ensures |n| == |FilePrefix| + |stamp| + |FileSuffix|
    ensures n[..|FilePrefix|] == FilePrefix && n[|n| - |FileSuffix|..] == FileSuffix
    ensures n[|FilePrefix|..|n| - |FileSuffix|] == stamp
    ensures Sep !in stamp ==> Sep !in n
  {
    FilePrefix + stamp + FileSuffix
  }

  /** `plan.map(p => p.dir)`. */
  function Dirs(plan: seq<PlanItem>): (dirs: seq<Path>)
    ensures |dirs| == |plan| && forall k :: 0 <= k < |plan| ==> dirs[k] == plan[k].dir
  {
    seq(|plan|, k requires 0 <= k < |plan| => plan[k].dir)
  }

  /**
   * `commonDir(plan.map(p => p.dir)) || plan[0].dir`: the plan's first
   * directory when the shared segments are none or only the empty root
   * segment (then `commonDir` gives `""`), else the shared segments joined.
   */
  function BackupRoot(plan: seq<PlanItem>): (root: Path)
    requires plan != []
    ensures var out := CommonSegments(SegmentLists(Dirs(plan)));
      (out == [] || out == [[]]) ==> root == plan[0].dir
    ensures var out := CommonSegments(SegmentLists(Dirs(plan)));
      out != [] && out != [[]] ==> Split(root) == out
  {
    var d := CommonDirOf(Dirs(plan)).value;
    if d != [] then d else plan[0].dir
  }

  /** The directories share at most the empty segment before a leading separator. */
  ghost predicate OnlyRootShared(parts: seq<seq<string>>)
  {
    forall q :: SharedPrefix(q, parts) ==> q <= [[]]
  }

  /**
   * Where the backup goes: the first plan directory exactly when the plan's
   * directories share nothing beyond the root; otherwise a directory whose
   * segments are the longest prefix shared by all of them. Never empty.
   */
  lemma BackupRootPlacement(plan: seq<PlanItem>)
    requires plan != [] && plan[0].dir != []
    ensures BackupRoot(plan) != []
    ensures OnlyRootShared(SegmentLists(Dirs(plan))) ==> BackupRoot(plan) == plan[0].dir
    ensures !OnlyRootShared(SegmentLists(Dirs(plan))) ==>
      var segs := Split(BackupRoot(plan)); var parts := SegmentLists(Dirs(plan));
      SharedPrefix(segs, parts) && forall q :: SharedPrefix(q, parts) ==> q <= segs
  {
    var parts := SegmentLists(Dirs(plan));
    var out := CommonSegments(parts);
    CommonSegmentsLongest(parts);
    if out == [] || out == [[]] {
      forall q | SharedPrefix(q, parts)
        ensures q <= [[]]
      {
        assert q <= out;
      }
    } else {
      assert !(out <= [[]]) by {
        if |out| == 1 {
          assert out == [out[0]];
        }
      }
      assert !OnlyRootShared(parts);
      assert Split([]) == [[]];
    }
  }

  /** The backup file sits directly inside the backup directory. */
  function BackupPathOf(plan: seq<PlanItem>, stamp: string): (p: Path)
    requires plan != []
    ensures Sep !in stamp ==> Split(p) == Split(BackupRoot(plan)) + [FileName(stamp)]
  {
    Join(BackupRoot(plan), FileName(stamp))
  }

  /** `plan.map(p => ({ from: p.from, to: p.to }))`. */
  function BackupItems(plan: seq<PlanItem>): (items: seq<BackupItem>)
    ensures |items| == |plan|
    ensures forall k :: 0 <= k < |plan| ==> items[k] == BackupItem(plan[k].from, plan[k].to)
  {
    seq(|plan|, k requires 0 <= k < |plan| => BackupItem(plan[k].from, plan[k].to))
  }

  /** The record of a batch exists only for a non-empty plan and lists its pairs in plan order. */
  function RecordOf(plan: seq<PlanItem>, createdAt: string): (r: Option<BackupRecord>)
    ensures r.Some? <==> plan != []
    ensures r.Some? ==> r.value.version == FormatVersion && r.value.createdAt == createdAt
    ensures r.Some? ==> |r.value.items| == |plan|
    ensures r.Some? ==> forall k :: 0 <= k < |plan| ==>
      r.value.items[k].from == plan[k].from && r.value.items[k].to == plan[k].to
  {
    if plan == [] then None else Some(BackupRecord(FormatVersion, createdAt, BackupItems(plan)))
  }

  /** The document `JSON.stringify` writes for a record. */
  function Encode(rec: BackupRecord): (d: Document)
    ensures d.JsonValue? && d.items.Some? && |d.items.value| == |rec.items|
    ensures forall k :: 0 <= k < |rec.items| ==>
      d.items.value[k] == Mapping(Some(rec.items[k].from), Some(rec.items[k].to))
  {
    JsonValue(Some(rec.version), Some(rec.createdAt),
      Some(seq(|rec.items|, k requires 0 <= k < |rec.items| => Mapping(Some(rec.items[k].from), Some(rec.items[k].to)))))
  }

  /**
   * The shape check of `read-backup` (and of the full revert): read the file,
   * parse it, and insist that its `items` is an array.
   */
  function ReadBackup(files: Files, denied: set<Path>, path: Path): (r: Result<Document, Error>)
    ensures r.Success? <==>
      path in files && path !in denied &&
      files[path].Parsed? && files[path].doc.JsonValue? && files[path].doc.items.Some?
    ensures r.Success? ==> r.value == files[path].doc
  {
    match ReadIn(files, denied, path)
    case Failure(e) => Failure(e)
    case Success(Raw(_)) => Failure(NotJson)
    case Success(Parsed(JsonNull)) => Failure(NullDocument)
    case Success(Parsed(d)) => if d.items.None? then Failure(InvalidBackupFormat) else Success(d)
  }

  /** A record written to `path` reads back with its items, pair for pair. */
  lemma ReadBackupOfWritten(files: Files, denied: set<Path>, path: Path, rec: BackupRecord)
    ensures var w := WriteIn(files, denied, path, Parsed(Encode(rec)));
      w.Success? ==> var r := ReadBackup(w.value, denied, path);
        r.Success? && r.value.items == Encode(rec).items
  {
  }
}
