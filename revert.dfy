/**
 * The revert engine: the `revert-renames` handler (a whole backup file), the
 * `read-backup` handler (its shape check) and the `revert-selected` handler
 * (entries picked by the user). Entries are replayed `to -> from` in reverse.
 */
module Revert {
  import opened Wrappers
  import opened Paths
  import opened Errors
  import opened Json
  import opened Fs
  import opened Backup

  datatype RevertResult =
    | Restore(restoredFrom: Option<Path>, restoredTo: Option<Path>, failure: Option<Error>)
    | Aborted(error: Error)  // the single result of a failure outside the per-item checks
  {
    predicate Ok()
    {
      Restore? && failure.None?
    }
  }

  /** The result names its entry: it restores from the entry's `to` to its `from`. */
  predicate Describes(r: RevertResult, e: Entry)
  {
    e.Mapping? && r.Restore? && r.restoredFrom == e.to && r.restoredTo == e.from
  }

  /**
   * The checks and the rename for one entry, in the handler's order. Every
   * failure leaves the file system as it was, and a restore never overwrites.
   */
  function RevertOne(from: Option<Path>, to: Option<Path>, files: Files, denied: set<Path>): (s: Outcome<RevertResult>)
    ensures s.value.Restore? && s.value.restoredFrom == to && s.value.restoredTo == from
    ensures Missing(to) || Missing(from) ==> s.value.failure == Some(InvalidMapping)
    ensures !Missing(to) && !Missing(from) && to.value !in files ==>
      s.value.failure == Some(RestoreSourceMissing)
    ensures !Missing(to) && !Missing(from) && to.value in files && from.value in files ==>
      s.value.failure == Some(RestoreTargetOccupied)
    ensures s.value.Ok() <==> (!Missing(to) && !Missing(from) && to.value in files && from.value !in files &&
                               to.value !in denied && from.value !in denied)
    ensures s.value.Ok() ==> Moved(files, s.files, to.value, from.value)
    ensures !s.value.Ok() ==> s.files == files
  {
    if Missing(to) || Missing(from) then Outcome(Restore(to, from, Some(InvalidMapping)), files)
    else if to.value !in files then Outcome(Restore(to, from, Some(RestoreSourceMissing)), files)
    else if from.value in files then Outcome(Restore(to, from, Some(RestoreTargetOccupied)), files)
    else
      match RenameIn(files, denied, to.value, from.value)
      case Success(f) => Outcome(Restore(to, from, None), f)
      case Failure(e) => Outcome(Restore(to, from, Some(e)), files)
  }

  /** The `error` text of each failed check is the engine's own message. */
  lemma RevertOneMessages(from: Option<Path>, to: Option<Path>, files: Files, denied: set<Path>)
    ensures var f := RevertOne(from, to, files, denied).value.failure;
      Missing(to) || Missing(from) ==> Message(f.value) == "Invalid mapping"
    ensures var f := RevertOne(from, to, files, denied).value.failure;
      !Missing(to) && !Missing(from) && to.value !in files ==>
        Message(f.value) == "Target to restore from not found"
    ensures var f := RevertOne(from, to, files, denied).value.failure;
      !Missing(to) && !Missing(from) && to.value in files && from.value in files ==>
        Message(f.value) == "Original name already exists"
  {
  }

  /** What a replay produced, and whether a null entry stopped it. */
  datatype Replay = Replay(results: seq<RevertResult>, files: Files, aborted: bool)

  /**
   * The loop over the (already reversed) entries: each entry is checked and
   * restored on its own; a null entry throws outside the per-item `try` and
   * ends the loop.
   */
  function RevertFrom(rev: seq<Entry>, files: Files, denied: set<Path>): (run: Replay)
    ensures |run.results| <= |rev|
    ensures run.aborted ==> NullEntry in rev
    ensures !run.aborted ==> |run.results| == |rev|
  {
    if rev == [] then Replay([], files, false)
    else
      match rev[0]
      case NullEntry => Replay([], files, true)
      case Mapping(from, to) =>
        var first := RevertOne(from, to, files, denied);
        var rest := RevertFrom(rev[1..], first.files, denied);
        Replay([first.value] + rest.results, rest.files, rest.aborted)
  }

  /** The number of entries before the first null one. */
  function Leading(rev: seq<Entry>): (n: nat)
    ensures n <= |rev|
    ensures forall k :: 0 <= k < n ==> rev[k].Mapping?
    ensures n < |rev| ==> rev[n].NullEntry?
  {
    if rev == [] || rev[0].NullEntry? then 0 else 1 + Leading(rev[1..])
  }

  /**
   * One result per entry up to the first null entry, in the order given,
   * each naming its entry; the replay stops exactly when there is a null entry.
   */
  lemma {:induction false} RevertDescribesEachEntry(rev: seq<Entry>, files: Files, denied: set<Path>)
    ensures var run := RevertFrom(rev, files, denied);
      |run.results| == Leading(rev) && (run.aborted <==> Leading(rev) < |rev|) &&
      forall k :: 0 <= k < |run.results| ==> Describes(run.results[k], rev[k])
  {
    if rev != [] && rev[0].Mapping? {
      var first := RevertOne(rev[0].from, rev[0].to, files, denied);
      RevertDescribesEachEntry(rev[1..], first.files, denied);
    }
  }

  /** Reverting never destroys a file: the number of files is unchanged. */
  lemma {:induction false} RevertKeepsFileCount(rev: seq<Entry>, files: Files, denied: set<Path>)
    ensures |RevertFrom(rev, files, denied).files| == |files|
  {
    if rev != [] && rev[0].Mapping? {
      var first := RevertOne(rev[0].from, rev[0].to, files, denied);
      if first.value.Ok() {
        MovedKeepsCount(files, first.files, rev[0].to.value, rev[0].from.value);
      }
      RevertKeepsFileCount(rev[1..], first.files, denied);
    }
  }

  /** The paths the successful restores moved away from. */
  function RestoredAway(results: seq<RevertResult>): set<Path>
  {
    set r | r in results && r.Ok() && r.restoredFrom.Some? :: r.restoredFrom.value
  }

  /** A file that no successful restore moved away keeps its path and its content. */
  lemma {:induction false} RevertLeavesOthersAlone(rev: seq<Entry>, files: Files, denied: set<Path>, q: Path)
    requires q in files
    requires q !in RestoredAway(RevertFrom(rev, files, denied).results)
    ensures q in RevertFrom(rev, files, denied).files
    ensures RevertFrom(rev, files, denied).files[q] == files[q]
  {
    if rev != [] && rev[0].Mapping? {
      var first := RevertOne(rev[0].from, rev[0].to, files, denied);
      var rest := RevertFrom(rev[1..], first.files, denied);
      var all := RevertFrom(rev, files, denied);
      assert all.results == [first.value] + rest.results;
      assert first.value in all.results;
      assert RestoredAway(rest.results) <= RestoredAway(all.results);
      RevertLeavesOthersAlone(rev[1..], first.files, denied, q);
    }
  }

  /** `[...s].reverse()`: element `k` is the input's element `|s| - 1 - k`. */
  function Reversed<T>(s: seq<T>): (r: seq<T>)
    ensures |r| == |s|
    ensures forall k :: 0 <= k < |s| ==> r[k] == s[|s| - 1 - k]
  {
    if s == [] then [] else [s[|s| - 1]] + Reversed(s[..|s| - 1])
  }

  /**
   * The `revert-renames` handler: a missing path, an unreadable file or a
   * record without an `items` array gives one failed result and no rename;
   * otherwise the items are replayed in reverse, and a null item appends one
   * failed result and ends the replay.
   */
  function RevertRenamesOf(files: Files, denied: set<Path>, backupPath: Option<Path>)
    : (out: Outcome<seq<RevertResult>>)
    ensures Missing(backupPath) ==> out == Outcome([Aborted(NoBackupPath)], files)
    ensures !Missing(backupPath) && ReadBackup(files, denied, backupPath.value).Failure? ==>
      out == Outcome([Aborted(ReadBackup(files, denied, backupPath.value).error)], files)
  {
    if Missing(backupPath) then Outcome([Aborted(NoBackupPath)], files)
    else
      match ReadBackup(files, denied, backupPath.value)
      case Failure(e) => Outcome([Aborted(e)], files)
      case Success(doc) =>
        var run := RevertFrom(Reversed(doc.items.value), files, denied);
        Outcome(run.results + (if run.aborted then [Aborted(NullItem)] else []), run.files)
  }

  /**
   * The `revert-selected` handler: nothing to do for a non-array or empty
   * selection; otherwise the selection is replayed in reverse, and a null
   * entry makes the handler throw after the restores already done.
   */
  function RevertSelectedOf(files: Files, denied: set<Path>, items: Option<seq<Entry>>)
    : (out: Outcome<Reply<seq<RevertResult>>>)
    ensures items.None? || items.value == [] ==> out == Outcome(Returned([]), files)
    ensures out.value.Threw? <==> items.Some? && NullEntry in items.value
  {
    if items.None? || items.value == [] then Outcome(Returned([]), files)
    else
      var rev := Reversed(items.value);
      var run := RevertFrom(rev, files, denied);
      RevertDescribesEachEntry(rev, files, denied);
      assert NullEntry in items.value <==> NullEntry in rev by {
        assert forall k :: 0 <= k < |rev| ==> rev[k] == items.value[|rev| - 1 - k];
        assert forall k :: 0 <= k < |rev| ==> items.value[k] == rev[|rev| - 1 - k];
      }
      if run.aborted then Outcome(Threw(NullItem), run.files) else Outcome(Returned(run.results), run.files)
  }

  /** The record-level failures report the engine's own messages. */
  lemma RevertRenamesMessages(files: Files, denied: set<Path>, backupPath: Option<Path>)
    ensures var out := RevertRenamesOf(files, denied, backupPath).value;
      Missing(backupPath) ==> |out| == 1 && Message(out[0].error) == "No backup path provided"
    ensures var out := RevertRenamesOf(files, denied, backupPath).value;
      !Missing(backupPath) && backupPath.value in files && backupPath.value !in denied &&
      files[backupPath.value].Parsed? &&
      files[backupPath.value].doc.JsonValue? && files[backupPath.value].doc.items.None? ==>
        |out| == 1 && Message(out[0].error) == "Invalid backup format"
    ensures var out := RevertRenamesOf(files, denied, backupPath);
      !Missing(backupPath) && backupPath.value in files && backupPath.value in denied ==>
        out == Outcome([Aborted(AccessDenied(backupPath.value))], files)
  {
  }

  /** Selected entries without a null one: one result per entry, in reverse order. */
  lemma RevertSelectedReversesOrder(files: Files, denied: set<Path>, items: seq<Entry>)
    requires NullEntry !in items
    ensures var out := RevertSelectedOf(files, denied, Some(items));
      out.value.Returned? && |out.value.value| == |items| &&
      forall k :: 0 <= k < |items| ==> Describes(out.value.value[k], items[|items| - 1 - k])
  {
    if items != [] {
      var rev := Reversed(items);
      RevertDescribesEachEntry(rev, files, denied);
      assert Leading(rev) == |rev|;
    }
  }

  /** A backup whose items hold no null entry: one result per item, in reverse order. */
  lemma RevertRenamesReversesOrder(files: Files, denied: set<Path>, backupPath: Path)
    requires backupPath != []
    requires ReadBackup(files, denied, backupPath).Success?
    requires NullEntry !in ReadBackup(files, denied, backupPath).value.items.value
    ensures var items := ReadBackup(files, denied, backupPath).value.items.value;
      var out := RevertRenamesOf(files, denied, Some(backupPath));
      |out.value| == |items| &&
      forall k :: 0 <= k < |items| ==> Describes(out.value[k], items[|items| - 1 - k])
  {
    var items := ReadBackup(files, denied, backupPath).value.items.value;
    var rev := Reversed(items);
    RevertDescribesEachEntry(rev, files, denied);
    assert Leading(rev) == |rev|;
    var run := RevertFrom(rev, files, denied);
    assert run.results + [] == run.results;
  }

  /** The body of the per-item `try` block. */
  method RevertItem(fs: FileSystem, from: Option<Path>, to: Option<Path>) returns (r: RevertResult)
    modifies fs
    ensures Outcome(r, fs.files) == RevertOne(from, to, old(fs.files), fs.denied)
  {
    if Missing(to) || Missing(from) {
      r := Restore(to, from, Some(InvalidMapping));
    } else if !fs.Exists(to.value) {
      r := Restore(to, from, Some(RestoreSourceMissing));
    } else if fs.Exists(from.value) {
      r := Restore(to, from, Some(RestoreTargetOccupied));
    } else {
      var err := fs.Rename(to.value, from.value);
      r := Restore(to, from, err);
    }
  }

  /** Running the replay from entry `i`, when that entry is not null. */
  lemma RevertFromUnfold(rev: seq<Entry>, i: nat, files: Files, denied: set<Path>)
    requires i < |rev| && rev[i].Mapping?
    ensures var step := RevertOne(rev[i].from, rev[i].to, files, denied);
      var next := RevertFrom(rev[i + 1..], step.files, denied);
      RevertFrom(rev[i..], files, denied) == Replay([step.value] + next.results, next.files, next.aborted)
  {
    assert rev[i..][0] == rev[i] && rev[i..][1..] == rev[i + 1..];
  }

  /** The loop shared by both revert handlers, over the reversed copy of the entries. */
  method RevertEntries(fs: FileSystem, rev: seq<Entry>) returns (results: seq<RevertResult>, aborted: bool)
    modifies fs
    ensures Replay(results, fs.files, aborted) == RevertFrom(rev, old(fs.files), fs.denied)
  {
    results, aborted := [], false;
    ghost var whole := RevertFrom(rev, fs.files, fs.denied);
    ghost var pending := whole;
    assert rev[0..] == rev;
    var i := 0;
    while i < |rev|
      invariant 0 <= i <= |rev|
      invariant pending == RevertFrom(rev[i..], fs.files, fs.denied)
      invariant whole == Replay(results + pending.results, pending.files, pending.aborted)
    {
      if rev[i].NullEntry? {
        assert rev[i..][0] == rev[i];
        aborted := true;
        break;
      }
      RevertFromUnfold(rev, i, fs.files, fs.denied);
      var r := RevertItem(fs, rev[i].from, rev[i].to);
      pending := RevertFrom(rev[i + 1..], fs.files, fs.denied);
      results := results + [r];
      i := i + 1;
    }
    if !aborted {
      assert rev[i..] == [];
    }
    assert results + [] == results;
  }

  /** The `read-backup` handler: the file's document, or the error it throws. */
  method ReadBackupFile(fs: FileSystem, path: Path) returns (r: Result<Document, Error>)
    ensures r == ReadBackup(fs.files, fs.denied, path)
  {
    var raw := fs.ReadFile(path);
    if raw.Failure? {
      return Failure(raw.error);
    }
    match raw.value
    case Raw(_) =>
      r := Failure(NotJson);
    case Parsed(JsonNull) =>
      r := Failure(NullDocument);
    case Parsed(doc) =>
      if doc.items.None? {
        r := Failure(InvalidBackupFormat);
      } else {
        r := Success(doc);
      }
  }

  /** The `revert-renames` handler over a file system. */
  method RevertRenames(fs: FileSystem, backupPath: Option<Path>) returns (results: seq<RevertResult>)
    modifies fs
    ensures Outcome(results, fs.files) == RevertRenamesOf(old(fs.files), fs.denied, backupPath)
  {
    if Missing(backupPath) {
      return [Aborted(NoBackupPath)];
    }
    var data := ReadBackupFile(fs, backupPath.value);
    if data.Failure? {
      return [Aborted(data.error)];
    }
    var aborted;
    results, aborted := RevertEntries(fs, Reversed(data.value.items.value));
    if aborted {
      results := results + [Aborted(NullItem)];
    } else {
      assert results + [] == results;
    }
  }

  /** The `revert-selected` handler over a file system. */
  method RevertSelected(fs: FileSystem, items: Option<seq<Entry>>) returns (reply: Reply<seq<RevertResult>>)
    modifies fs
    ensures Outcome(reply, fs.files) == RevertSelectedOf(old(fs.files), fs.denied, items)
  {
    if items.None? || |items.value| == 0 {
      return Returned([]);
    }
    var results, aborted := RevertEntries(fs, Reversed(items.value));
    if aborted {
      reply := Threw(NullItem);
    } else {
      reply := Returned(results);
    }
  }
}
