/**
 * Apply followed by revert: replaying a fully successful batch's backup in
 * reverse order puts every file back where it was.
 */
module RoundTrip {
  import opened Wrappers
  import opened Paths
  import opened Errors
  import opened Json
  import opened Fs
  import opened Plans
  import opened Backup
  import opened Apply
  import opened Revert

  /** The backup entries of a plan, as the revert handlers read them. */
  function PlanEntries(plan: seq<PlanItem>): (es: seq<Entry>)
    ensures |es| == |plan|
    ensures forall k :: 0 <= k < |plan| ==> es[k] == Mapping(Some(plan[k].from), Some(plan[k].to))
  {
    seq(|plan|, k requires 0 <= k < |plan| => Mapping(Some(plan[k].from), Some(plan[k].to)))
  }

  /** A replay that was not stopped continues with the next entries from where it ended. */
  lemma {:induction false} RevertFromAppend(a: seq<Entry>, b: seq<Entry>, files: Files, denied: set<Path>)
    requires !RevertFrom(a, files, denied).aborted
    ensures var ra := RevertFrom(a, files, denied);
      var rb := RevertFrom(b, ra.files, denied);
      RevertFrom(a + b, files, denied) == Replay(ra.results + rb.results, rb.files, rb.aborted)
  {
    if a == [] {
      assert a + b == b;
    } else {
      assert (a + b)[0] == a[0] && (a + b)[1..] == a[1..] + b;
      var first := RevertOne(a[0].from, a[0].to, files, denied);
      RevertFromAppend(a[1..], b, first.files, denied);
      var ra := RevertFrom(a, files, denied);
      var rb := RevertFrom(b, ra.files, denied);
      var rest := RevertFrom(a[1..], first.files, denied);
      assert [first.value] + (rest.results + rb.results) == ([first.value] + rest.results) + rb.results;
    }
  }

  /** Undoing the last successful move of a batch restores the state before it. */
  lemma UndoMove(before: Files, after: Files, from: Path, to: Path, denied: set<Path>)
    requires Moved(before, after, from, to)
    requires from != [] && to != [] && from !in denied && to !in denied
    ensures var s := RevertOne(Some(from), Some(to), after, denied);
      s.value.Ok() && s.files == before
  {
    var s := RevertOne(Some(from), Some(to), after, denied);
    assert from != to;
    assert to in after && from !in after;
    assert s.files == (after - {to})[from := after[to]];
    assert s.files == before by {
      assert s.files.Keys == before.Keys;
      forall q | q in before
        ensures s.files[q] == before[q]
      {
      }
    }
  }

  /** The entries of a plan, reversed, end with those of its first item. */
  lemma ReversedEntriesSplit(plan: seq<PlanItem>)
    requires plan != []
    ensures Reversed(PlanEntries(plan)) ==
      Reversed(PlanEntries(plan[1..])) + [Mapping(Some(plan[0].from), Some(plan[0].to))]
  {
    assert PlanEntries(plan[1..]) == PlanEntries(plan)[1..];
  }

  /** A batch all of whose items succeeded: its first item did, and so did all the others. */
  lemma AllOkSplits(plan: seq<PlanItem>, files: Files, denied: set<Path>, backupPath: Option<Path>)
    requires plan != []
    requires forall r :: r in ApplyFrom(plan, files, denied, backupPath).value ==> r.Ok()
    ensures var first := ApplyOne(plan[0], files, denied, backupPath);
      first.value.Ok() &&
      forall r :: r in ApplyFrom(plan[1..], first.files, denied, backupPath).value ==> r.Ok()
  {
    var first := ApplyOne(plan[0], files, denied, backupPath);
    var rest := ApplyFrom(plan[1..], first.files, denied, backupPath);
    assert ApplyFrom(plan, files, denied, backupPath).value == [first.value] + rest.value;
  }

  /**
   * When every item of a batch succeeded, replaying its entries in reverse
   * order succeeds item by item and restores the file system exactly.
   */
  lemma {:induction false} RevertUndoesApply(plan: seq<PlanItem>, files: Files, denied: set<Path>, backupPath: Option<Path>)
    requires forall k :: 0 <= k < |plan| ==> plan[k].from != [] && plan[k].to != []
    requires forall r :: r in ApplyFrom(plan, files, denied, backupPath).value ==> r.Ok()
    ensures var applied := ApplyFrom(plan, files, denied, backupPath);
      var back := RevertFrom(Reversed(PlanEntries(plan)), applied.files, denied);
      back.files == files && !back.aborted && |back.results| == |plan| &&
      forall r :: r in back.results ==> r.Ok()
  {
    if plan == [] {
      assert Reversed(PlanEntries(plan)) == [];
    } else {
      var applied := ApplyFrom(plan, files, denied, backupPath);
      var first := ApplyOne(plan[0], files, denied, backupPath);
      AllOkSplits(plan, files, denied, backupPath);
      RevertUndoesApply(plan[1..], first.files, denied, backupPath);
      var tailEntries := Reversed(PlanEntries(plan[1..]));
      var e0 := Mapping(Some(plan[0].from), Some(plan[0].to));
      ReversedEntriesSplit(plan);
      RevertFromAppend(tailEntries, [e0], applied.files, denied);
      var ra := RevertFrom(tailEntries, applied.files, denied);
      UndoMove(files, first.files, plan[0].from, plan[0].to, denied);
      var step := RevertOne(Some(plan[0].from), Some(plan[0].to), first.files, denied);
      assert [e0][1..] == [];
      assert RevertFrom([e0], ra.files, denied) == Replay([step.value], files, false);
    }
  }

  /**
   * The batch as the handlers run it: for a plan whose sources exist, whose
   * targets and backup file are free and distinct, and where nothing is
   * refused, apply succeeds on every item, and the full revert of its backup
   * succeeds on every item in reverse order and leaves exactly the original
   * files plus the backup file.
   */
  lemma ApplyRenamesThenRevertRenames(
    files: Files, denied: set<Path>, payload: seq<Candidate>, stamp: string, createdAt: string)
    requires BuildPlan(payload) != []
    requires var plan := BuildPlan(payload); var bp := BackupPathOf(plan, stamp);
      bp !in denied &&
      forall k :: 0 <= k < |plan| ==>
        plan[k].from in files && plan[k].to !in files && plan[k].from !in denied && plan[k].to !in denied &&
        plan[k].from != bp && plan[k].to != bp
    requires var plan := BuildPlan(payload);
      forall j, k :: 0 <= j < k < |plan| ==> plan[j].from != plan[k].from && plan[j].to != plan[k].to
    ensures var plan := BuildPlan(payload);
      var applied := ApplyRenamesOf(files, denied, payload, stamp, createdAt);
      applied.value.Returned? && |applied.value.value| == |plan| &&
      forall r :: r in applied.value.value ==> r.Ok()
    ensures var plan := BuildPlan(payload); var bp := BackupPathOf(plan, stamp);
      var applied := ApplyRenamesOf(files, denied, payload, stamp, createdAt);
      var back := RevertRenamesOf(applied.files, denied, Some(bp));
      back.files == files[bp := Parsed(Encode(RecordOf(plan, createdAt).value))] &&
      |back.value| == |plan| &&
      forall k :: 0 <= k < |plan| ==>
        back.value[k] == Restore(Some(plan[|plan| - 1 - k].to), Some(plan[|plan| - 1 - k].from), None)
  {
    var plan := BuildPlan(payload);
    var bp := BackupPathOf(plan, stamp);
    var record := RecordOf(plan, createdAt).value;
    ApplyRenamesWritesFirst(files, denied, payload, stamp, createdAt);
    assert Encode(record).items.value == PlanEntries(plan);
    ApplyThenRevertOnPlan(plan, files, denied, bp, record);
  }

  /** When the backup can be written, the handler runs the plan on the file system holding it. */
  lemma ApplyRenamesWritesFirst(files: Files, denied: set<Path>, payload: seq<Candidate>, stamp: string, createdAt: string)
    requires BuildPlan(payload) != []
    requires BackupPathOf(BuildPlan(payload), stamp) !in denied
    ensures var plan := BuildPlan(payload); var bp := BackupPathOf(plan, stamp);
      var written := files[bp := Parsed(Encode(RecordOf(plan, createdAt).value))];
      var run := ApplyFrom(plan, written, denied, Some(bp));
      ApplyRenamesOf(files, denied, payload, stamp, createdAt) == Outcome(Returned(run.value), run.files)
  {
  }

  /** A full revert of a file holding a record replays the record's entries in reverse. */
  lemma RevertRenamesOfRecord(files: Files, denied: set<Path>, bp: Path, record: BackupRecord)
    requires bp != [] && bp in files && bp !in denied && files[bp] == Parsed(Encode(record))
    requires !RevertFrom(Reversed(Encode(record).items.value), files, denied).aborted
    ensures var back := RevertFrom(Reversed(Encode(record).items.value), files, denied);
      RevertRenamesOf(files, denied, Some(bp)) == Outcome(back.results, back.files)
  {
    var back := RevertFrom(Reversed(Encode(record).items.value), files, denied);
    assert back.results + [] == back.results;
  }

  /**
   * Under the conditions of the round trip, every item succeeds and the backup
   * file written first is still in place afterwards.
   */
  lemma BackupSurvivesApply(plan: seq<PlanItem>, written: Files, denied: set<Path>, bp: Path)
    requires bp in written
    requires forall k :: 0 <= k < |plan| ==>
      plan[k].from in written && plan[k].to !in written && plan[k].from !in denied && plan[k].to !in denied &&
      plan[k].from != bp
    requires forall j, k :: 0 <= j < k < |plan| ==> plan[j].from != plan[k].from && plan[j].to != plan[k].to
    ensures var run := ApplyFrom(plan, written, denied, Some(bp));
      |run.value| == |plan| && (forall r :: r in run.value ==> r.Ok()) &&
      bp in run.files && run.files[bp] == written[bp]
  {
    ApplySucceeds(plan, written, denied, Some(bp));
    ApplyReportsEachItem(plan, written, denied, Some(bp));
    var run := ApplyFrom(plan, written, denied, Some(bp));
    assert bp !in MovedAway(run.value) by {
      forall r | r in run.value && r.Ok()
        ensures r.from != bp
      {
        var k :| 0 <= k < |run.value| && run.value[k] == r;
        assert r.from == plan[k].from;
      }
    }
    ApplyLeavesOthersAlone(plan, written, denied, Some(bp), bp);
  }

  /** A replay of a plan's entries in reverse that succeeds everywhere restores each item, last first. */
  lemma RevertOfPlanEntries(plan: seq<PlanItem>, files: Files, denied: set<Path>)
    requires var back := RevertFrom(Reversed(PlanEntries(plan)), files, denied);
      !back.aborted && forall r :: r in back.results ==> r.Ok()
    ensures var back := RevertFrom(Reversed(PlanEntries(plan)), files, denied);
      |back.results| == |plan| &&
      forall k :: 0 <= k < |plan| ==>
        back.results[k] == Restore(Some(plan[|plan| - 1 - k].to), Some(plan[|plan| - 1 - k].from), None)
  {
    var rev := Reversed(PlanEntries(plan));
    RevertDescribesEachEntry(rev, files, denied);
    var back := RevertFrom(rev, files, denied);
    forall k | 0 <= k < |plan|
      ensures back.results[k] == Restore(Some(plan[|plan| - 1 - k].to), Some(plan[|plan| - 1 - k].from), None)
    {
      assert back.results[k] in back.results;
    }
  }

  /**
   * The round trip on a plan whose record is already written at `bp`: every
   * item succeeds, and the full revert of `bp` restores the written state,
   * last item first.
   */
  lemma ApplyThenRevertOnPlan(plan: seq<PlanItem>, files: Files, denied: set<Path>, bp: Path, record: BackupRecord)
    requires bp != [] && bp !in denied && Encode(record).items.value == PlanEntries(plan)
    requires forall k :: 0 <= k < |plan| ==> plan[k].from != [] && plan[k].to != []
    requires forall k :: 0 <= k < |plan| ==>
      plan[k].from in files && plan[k].to !in files && plan[k].from !in denied && plan[k].to !in denied &&
      plan[k].from != bp && plan[k].to != bp
    requires forall j, k :: 0 <= j < k < |plan| ==> plan[j].from != plan[k].from && plan[j].to != plan[k].to
    ensures var written := files[bp := Parsed(Encode(record))];
      var run := ApplyFrom(plan, written, denied, Some(bp));
      |run.value| == |plan| && (forall r :: r in run.value ==> r.Ok()) &&
      var back := RevertRenamesOf(run.files, denied, Some(bp));
      back.files == written && |back.value| == |plan| &&
      forall k :: 0 <= k < |plan| ==>
        back.value[k] == Restore(Some(plan[|plan| - 1 - k].to), Some(plan[|plan| - 1 - k].from), None)
  {
    var written := files[bp := Parsed(Encode(record))];
    BackupSurvivesApply(plan, written, denied, bp);
    var run := ApplyFrom(plan, written, denied, Some(bp));
    RevertUndoesApply(plan, written, denied, Some(bp));
    RevertRenamesOfRecord(run.files, denied, bp, record);
    RevertOfPlanEntries(plan, run.files, denied);
  }

  /**
   * Why the order matters: renaming A to B and then B to C, undone in reverse
   * order, brings A back; undone in the batch's own order, it does not.
   */
  lemma ReverseOrderMatters()
    ensures var a, b, c := "/d/A", "/d/B", "/d/C";
      var plan := [PlanItem("/d", a, b), PlanItem("/d", b, c)];
      var files := map[a := Raw("content")];
      var applied := ApplyFrom(plan, files, {}, None);
      applied.files == map[c := Raw("content")] &&
      RevertFrom(Reversed(PlanEntries(plan)), applied.files, {}).files == files &&
      RevertFrom(PlanEntries(plan), applied.files, {}).files == map[b := Raw("content")]
  {
    var a, b, c := "/d/A", "/d/B", "/d/C";
    assert a != b && b != c && a != c by {
      assert a[3] == 'A' && b[3] == 'B' && c[3] == 'C';
    }
    var plan := [PlanItem("/d", a, b), PlanItem("/d", b, c)];
    var files := map[a := Raw("content")];
    var afterFirst := map[b := Raw("content")];
    var applied := map[c := Raw("content")];
    assert plan[0..] == plan && plan[2..] == [];
    ApplyFromUnfold(plan, 0, files, {}, None);
    assert ApplyOne(plan[0], files, {}, None).files == afterFirst;
    ApplyFromUnfold(plan, 1, afterFirst, {}, None);
    assert ApplyOne(plan[1], afterFirst, {}, None).files == applied;
    var entries := PlanEntries(plan);
    var rev := Reversed(entries);
    assert rev == [entries[1], entries[0]];
    assert rev[0..] == rev && rev[2..] == [];
    RevertFromUnfold(rev, 0, applied, {});
    assert RevertOne(Some(b), Some(c), applied, {}).files == afterFirst;
    RevertFromUnfold(rev, 1, afterFirst, {});
    assert RevertOne(Some(a), Some(b), afterFirst, {}).files == files;
    assert entries[0..] == entries && entries[2..] == [];
    RevertFromUnfold(entries, 0, applied, {});
    assert RevertOne(Some(a), Some(b), applied, {}).files == applied;
    RevertFromUnfold(entries, 1, applied, {});
    assert RevertOne(Some(b), Some(c), applied, {}).files == afterFirst;
  }
}
