/**
 * The `apply-renames` handler: build the plan, write the backup before any
 * rename, then rename item by item, recording one result per item.
 */
module Apply {
  import opened Wrappers
  import opened Paths
  import opened Errors
  import opened Fs
  import opened Plans
  import opened Backup

  datatype RenameResult = RenameResult(
    from: Path, to: Path, dir: Path, backupPath: Option<Path>, failure: Option<Error>)
  {
    predicate Ok()
    {
      failure.None?
    }
  }

  /** The result carries the item's paths and the batch's backup path. */
  predicate Reports(r: RenameResult, p: PlanItem, backupPath: Option<Path>)
  {
    r.from == p.from && r.to == p.to && r.dir == p.dir && r.backupPath == backupPath
  }

  /**
   * One pass of the loop body. An existing target is refused, so nothing is
   * ever overwritten; a failed item leaves the file system as it was.
   */
  function ApplyOne(p: PlanItem, files: Files, denied: set<Path>, backupPath: Option<Path>): (s: Outcome<RenameResult>)
    ensures Reports(s.value, p, backupPath)
    ensures p.to in files ==> s.value.failure == Some(TargetExists)
    ensures s.value.Ok() <==> p.from in files && p.to !in files && p.from !in denied && p.to !in denied
    ensures s.value.Ok() ==> Moved(files, s.files, p.from, p.to)
    ensures !s.value.Ok() ==> s.files == files
  {
    if p.to in files then
      Outcome(RenameResult(p.from, p.to, p.dir, backupPath, Some(TargetExists)), files)
    else
      match RenameIn(files, denied, p.from, p.to)
      case Success(f) => Outcome(RenameResult(p.from, p.to, p.dir, backupPath, None), f)
      case Failure(e) => Outcome(RenameResult(p.from, p.to, p.dir, backupPath, Some(e)), files)
  }

  /** A refused item reports the engine's own message in its `error` field. */
  lemma ApplyOneMessage(p: PlanItem, files: Files, denied: set<Path>, backupPath: Option<Path>)
    requires p.to in files
    ensures Message(ApplyOne(p, files, denied, backupPath).value.failure.value) == "Target already exists"
  {
  }

  /** The loop over the plan: every item is tried, whatever happened to the earlier ones. */
  function ApplyFrom(plan: seq<PlanItem>, files: Files, denied: set<Path>, backupPath: Option<Path>)
    : (run: Outcome<seq<RenameResult>>)
    ensures |run.value| == |plan|
  {
    if plan == [] then Outcome([], files)
    else
      var first := ApplyOne(plan[0], files, denied, backupPath);
      var rest := ApplyFrom(plan[1..], first.files, denied, backupPath);
      Outcome([first.value] + rest.value, rest.files)
  }

  /** Exactly one result per plan item, in plan order, carrying that item's paths. */
  lemma {:induction false} ApplyReportsEachItem(plan: seq<PlanItem>, files: Files, denied: set<Path>, backupPath: Option<Path>)
    ensures var run := ApplyFrom(plan, files, denied, backupPath);
      |run.value| == |plan| && forall k :: 0 <= k < |plan| ==> Reports(run.value[k], plan[k], backupPath)
  {
    if plan != [] {
      var first := ApplyOne(plan[0], files, denied, backupPath);
      ApplyReportsEachItem(plan[1..], first.files, denied, backupPath);
    }
  }

  /** Applying a plan never destroys a file: the number of files is unchanged. */
  lemma {:induction false} ApplyKeepsFileCount(plan: seq<PlanItem>, files: Files, denied: set<Path>, backupPath: Option<Path>)
    ensures |ApplyFrom(plan, files, denied, backupPath).files| == |files|
  {
    if plan != [] {
      var first := ApplyOne(plan[0], files, denied, backupPath);
      if first.value.Ok() {
        MovedKeepsCount(files, first.files, plan[0].from, plan[0].to);
      }
      ApplyKeepsFileCount(plan[1..], first.files, denied, backupPath);
    }
  }

  /** The sources of the items that succeeded. */
  function MovedAway(results: seq<RenameResult>): set<Path>
  {
    set r | r in results && r.Ok() :: r.from
  }

  /** A file that no successful item renamed away keeps its path and its content. */
  lemma {:induction false} ApplyLeavesOthersAlone(
    plan: seq<PlanItem>, files: Files, denied: set<Path>, backupPath: Option<Path>, q: Path)
    requires q in files
    requires q !in MovedAway(ApplyFrom(plan, files, denied, backupPath).value)
    ensures q in ApplyFrom(plan, files, denied, backupPath).files
    ensures ApplyFrom(plan, files, denied, backupPath).files[q] == files[q]
  {
    if plan != [] {
      var first := ApplyOne(plan[0], files, denied, backupPath);
      var rest := ApplyFrom(plan[1..], first.files, denied, backupPath);
      var all := ApplyFrom(plan, files, denied, backupPath);
      assert all.value == [first.value] + rest.value;
      assert first.value in all.value;
      assert MovedAway(rest.value) <= MovedAway(all.value);
      ApplyLeavesOthersAlone(plan[1..], first.files, denied, backupPath, q);
    }
  }

  /**
   * With every source present, every target free, no refused path and no
   * source or target named twice, every item of the plan succeeds.
   */
  lemma {:induction false} ApplySucceeds(plan: seq<PlanItem>, files: Files, denied: set<Path>, backupPath: Option<Path>)
    requires forall k :: 0 <= k < |plan| ==>
      plan[k].from in files && plan[k].to !in files && plan[k].from !in denied && plan[k].to !in denied
    requires forall j, k :: 0 <= j < k < |plan| ==> plan[j].from != plan[k].from && plan[j].to != plan[k].to
    ensures forall r :: r in ApplyFrom(plan, files, denied, backupPath).value ==> r.Ok()
  {
    if plan != [] {
      var first := ApplyOne(plan[0], files, denied, backupPath);
      var tail := plan[1..];
      forall k | 0 <= k < |tail|
        ensures tail[k].from in first.files && tail[k].to !in first.files
      {
        assert tail[k] == plan[k + 1];
      }
      forall j, k | 0 <= j < k < |tail|
        ensures tail[j].from != tail[k].from && tail[j].to != tail[k].to
      {
        assert tail[j] == plan[j + 1] && tail[k] == plan[k + 1];
      }
      ApplySucceeds(tail, first.files, denied, backupPath);
    }
  }

  /**
   * The whole handler: an empty plan does nothing; otherwise the backup is
   * written first, and if that fails the handler throws with no rename done.
   */
  function ApplyRenamesOf(files: Files, denied: set<Path>, payload: seq<Candidate>, stamp: string, createdAt: string)
    : (out: Outcome<Reply<seq<RenameResult>>>)
    ensures BuildPlan(payload) == [] ==> out == Outcome(Returned([]), files)
    ensures out.value.Threw? <==> BuildPlan(payload) != [] && BackupPathOf(BuildPlan(payload), stamp) in denied
    ensures out.value.Threw? ==> out.files == files
    ensures out.value.Returned? ==> |out.value.value| == |BuildPlan(payload)|
    ensures out.value.Returned? && BuildPlan(payload) != [] ==>
      var plan := BuildPlan(payload);
      forall k :: 0 <= k < |plan| ==> Reports(out.value.value[k], plan[k], Some(BackupPathOf(plan, stamp)))
  {
    var plan := BuildPlan(payload);
    if plan == [] then Outcome(Returned([]), files)
    else
      var backupPath := BackupPathOf(plan, stamp);
      var record := RecordOf(plan, createdAt).value;
      match WriteIn(files, denied, backupPath, Parsed(Encode(record)))
      case Failure(e) => Outcome(Threw(e), files)
      case Success(written) =>
        var run := ApplyFrom(plan, written, denied, Some(backupPath));
        ApplyReportsEachItem(plan, written, denied, Some(backupPath));
        Outcome(Returned(run.value), run.files)
  }

  /** Running the plan from item `i` is item `i`'s step followed by the rest. */
  lemma ApplyFromUnfold(plan: seq<PlanItem>, i: nat, files: Files, denied: set<Path>, backupPath: Option<Path>)
    requires i < |plan|
    ensures var step := ApplyOne(plan[i], files, denied, backupPath);
      var next := ApplyFrom(plan[i + 1..], step.files, denied, backupPath);
      ApplyFrom(plan[i..], files, denied, backupPath) == Outcome([step.value] + next.value, next.files)
  {
    assert plan[i..][0] == plan[i] && plan[i..][1..] == plan[i + 1..];
  }

  /** The body of the `try` block for one item. */
  method ApplyItem(fs: FileSystem, p: PlanItem, backupPath: Option<Path>) returns (r: RenameResult)
    modifies fs
    ensures Outcome(r, fs.files) == ApplyOne(p, old(fs.files), fs.denied, backupPath)
  {
    if fs.Exists(p.to) {
      r := RenameResult(p.from, p.to, p.dir, backupPath, Some(TargetExists));
    } else {
      var err := fs.Rename(p.from, p.to);
      r := RenameResult(p.from, p.to, p.dir, backupPath, err);
    }
  }

  /** The rename loop: one result per plan item, in plan order. */
  method ApplyPlan(fs: FileSystem, plan: seq<PlanItem>, backupPath: Option<Path>)
    returns (results: seq<RenameResult>)
    modifies fs
    ensures Outcome(results, fs.files) == ApplyFrom(plan, old(fs.files), fs.denied, backupPath)
  {
    results := [];
    ghost var whole := ApplyFrom(plan, fs.files, fs.denied, backupPath);
    ghost var pending := whole;
    assert plan[0..] == plan;
    for i := 0 to |plan|
      invariant pending == ApplyFrom(plan[i..], fs.files, fs.denied, backupPath)
      invariant whole.value == results + pending.value && whole.files == pending.files
    {
      ApplyFromUnfold(plan, i, fs.files, fs.denied, backupPath);
      var r := ApplyItem(fs, plan[i], backupPath);
      pending := ApplyFrom(plan[i + 1..], fs.files, fs.denied, backupPath);
      results := results + [r];
    }
    assert plan[|plan|..] == [];
    assert pending.value == [];
    assert results + [] == results;
  }

  /** The `apply-renames` handler over a file system. */
  method ApplyRenames(fs: FileSystem, payload: seq<Candidate>, stamp: string, createdAt: string)
    returns (reply: Reply<seq<RenameResult>>)
    modifies fs
    ensures Outcome(reply, fs.files) == ApplyRenamesOf(old(fs.files), fs.denied, payload, stamp, createdAt)
  {
    var plan := BuildPlan(payload);
    var backupPath: Option<Path> := None;
    if |plan| > 0 {
      var common := CommonDir(Dirs(plan));
      var root := if common.Some? && common.value != [] then common.value else plan[0].dir;
      assert root == BackupRoot(plan);
      var path := Join(root, FileName(stamp));
      var record := BackupRecord(FormatVersion, createdAt, BackupItems(plan));
      var err := fs.WriteFile(path, Parsed(Encode(record)));
      if err.Some? {
        return Threw(err.value);
      }
      backupPath := Some(path);
    }
    var results := ApplyPlan(fs, plan, backupPath);
    reply := Returned(results);
  }
}
