# Smart Renamer: batch rename and undo engine, modelled in Dafny

This project models the part of the Smart Renamer main process (`main.js`) that renames files in batches and undoes those batches:

- `commonDir`, which finds the directory where a batch's backup file goes;
- the plan builder of the `apply-renames` handler;
- the backup record that handler writes before it renames anything;
- its rename loop, which isolates each item's failure;
- the `revert-renames`, `read-backup` and `revert-selected` handlers, which replay a backup `to -> from` in reverse order.

The file system is the class `Fs.FileSystem`. It holds a map from each existing path to that file's content, and a set of paths the operating system refuses to read, write or rename. Every handler is a method over that class, proved equal to a pure function of the old state (`ApplyRenamesOf`, `RevertRenamesOf`, `RevertSelectedOf`). The lemmas state what the code promises about those functions: ordering, one result per item, no overwrite, an unchanged file system on any failed item, a backup that matches the plan, and the apply-then-revert round trip.

Modules, one per component:

- `Wrappers` (wrappers.dfy): `Option`, `Result`.
- `Paths` (paths.dfy): `Join`, `Split`/`JoinSegments` (JavaScript `split`/`join` on `/`), `commonDir`.
- `Errors` (errors.dfy): the error values with their messages, and `Reply` (a handler returns or throws).
- `Json` (json.dfy): what `JSON.parse` yields for a backup file, as far as the engine reads it.
- `Fs` (fs.dfy): file contents, `rename`/`writeFile`/`readFile`/`existsSync`, the `FileSystem` class.
- `Plans` (plans.dfy): candidates and the plan builder.
- `Backup` (backup.dfy): backup placement, the record, and the `items` shape check.
- `Apply` (apply.dfy): the `apply-renames` handler.
- `Revert` (revert.dfy): the `revert-renames`, `read-backup` and `revert-selected` handlers.
- `RoundTrip` (roundtrip.dfy): apply followed by full revert.

Behaviours of the code worth knowing, which the model keeps as written:

- The backup `version` is written as 1 and never read. No reader rejects an unknown version.
- A `null` element of a backup's `items` is destructured outside the per-item `try`. In `revert-renames` the outer `catch` then appends one `{ok: false}` result and stops the replay, so the earlier items in the record are never restored. In `revert-selected` the handler throws after the restores it has already done.
- `commonDir` returns `""` when the directories share only the root segment. `apply-renames` treats that as falsy and places the backup in the first plan item's directory.

## Model

| member | source | states |
|---|---|---|
| Paths.Join | main.js:88-89 | Joining a directory and a name without a separator gives a path whose segments are the directory's followed by the name |
| Paths.JoinInjective | main.js:88-89 | For a fixed directory, two joined paths are equal exactly when the names are equal |
| Paths.Split | main.js:54 | Splitting on the separator gives at least one segment, and no segment contains the separator |
| Paths.SplitConcat | main.js:54 | Splitting at a separator splits the two sides independently and concatenates their segments |
| Paths.JoinSplit | main.js:54-62 | Joining a path's segments again gives back the path |
| Paths.JoinSegments | main.js:62 | The joined path starts with the first segment, and it is empty exactly for no segments or a single empty one (the `""` that `apply-renames` treats as falsy) |
| Paths.SplitJoin | main.js:54-62 | Splitting the join of separator-free segments gives back the segments |
| Paths.SegmentLists | main.js:54 | One segment list per directory, in order, each the split of that directory |
| Paths.MinLength | main.js:55 | The minimum segment count is at most every list's length and equals one of them |
| Paths.CommonLength | main.js:56-61 | The loop's stopping index: all lists agree at every index before it and disagree or run out at it |
| Paths.CommonSegmentsLongest | main.js:56-61 | The pushed segments are a prefix of every list, and every prefix all lists share is a prefix of them |
| Paths.CommonDirOf | main.js:52-63 | `null` exactly for no directories; the first directory when no segment is shared; otherwise a path that splits back into exactly the shared segments |
| Paths.CommonDirIsLongestSharedPrefix | main.js:52-63 | `null` exactly for no directories; the first directory when no segment is shared; otherwise a path whose segments are the longest shared prefix |
| Paths.CommonDir | main.js:52-63 | The loop with its early `break` computes exactly the common directory |
| Plans.Keeps | main.js:86 | A kept candidate's `from` and `to` paths differ |
| Plans.ItemOf | main.js:87-91 | A kept candidate yields distinct `from` and `to` in its own directory |
| Plans.BuildPlan | main.js:85-91 | The plan is no longer than the input; every item has a directory and distinct, non-empty `from` and `to` |
| Plans.BuildPlanAppend | main.js:85-91 | Building distributes over concatenation, so input order is kept |
| Plans.BuildPlanSingle | main.js:86-90 | One candidate contributes its item exactly when dir, base and proposed are present and base differs from proposed |
| Plans.BuildPlanMembers | main.js:85-91 | An item is in the plan if and only if some kept candidate maps to it |
| Backup.FileName | main.js:97 | The name is the fixed prefix, the stamp and `.json`; the stamp can be read back from it, and a stamp without a separator gives a plain file name |
| Backup.BackupRoot | main.js:95 | Falls back to the first plan directory when the shared segments are none or only the empty root segment; otherwise its segments are exactly the shared ones |
| Backup.BackupRootPlacement | main.js:95 | The backup directory is never empty. It is the first plan directory when the plan's directories share nothing beyond the root. Otherwise its segments are the longest prefix that all plan directories share |
| Backup.BackupPathOf | main.js:98 | For a stamp without a separator, the backup file's segments are the backup directory's followed by the file name |
| Backup.BackupItems | main.js:102 | The items are the plan's (from, to) pairs, one per item, in plan order |
| Backup.RecordOf | main.js:94-103 | A record exists only for a non-empty plan; it has version 1, the given timestamp, and the plan's pairs in order |
| Backup.Encode | main.js:99-104 | The written document has an `items` array holding the record's pairs, pair for pair |
| Backup.ReadBackup | main.js:179-183 | Reading succeeds exactly when the file exists, is not refused, parses, is not null and its `items` is an array; it then yields the document |
| Backup.ReadBackupOfWritten | main.js:179-183 | A record whose write succeeded reads back from that path with the same items |
| Fs.MovedKeepsCount | main.js:111-112 | A move onto a free name keeps the number of files |
| Fs.RenameIn | main.js:112 | A rename succeeds exactly when the source exists and neither path is refused; onto a free name it moves the content |
| Fs.WriteIn | main.js:104 | A write succeeds unless the path is refused. On success it adds the path if needed, puts the content there and leaves every other file's content as it was |
| Fs.FileSystem.Rename | main.js:112 | The new state is the rename's result; on failure the state is unchanged and the error is returned |
| Fs.FileSystem.WriteFile | main.js:104 | The new state is the write's result; on failure the state is unchanged |
| Fs.FileSystem.ReadFile | main.js:149 | Returns the file's content; a missing file gives the not-found error and a refused one the refusal error |
| Apply.ApplyOne | main.js:110-129 | An existing target fails with "Target already exists"; success happens exactly when the source exists, the target is free and nothing is refused, and it moves only that file; any failure leaves the files unchanged |
| Apply.ApplyOneMessage | main.js:111 | An item whose target exists reports "Target already exists" |
| Apply.ApplyFrom | main.js:108-131 | The loop tries every item whatever happened to earlier ones, so there is exactly one result per item |
| Apply.ApplyReportsEachItem | main.js:108-131 | Exactly one result per plan item, in plan order, each carrying that item's from, to, dir and the batch's backup path |
| Apply.ApplyKeepsFileCount | main.js:108-131 | Applying a plan never destroys a file: the file count is unchanged |
| Apply.ApplyLeavesOthersAlone | main.js:108-131 | A file that no successful item renamed away keeps its path and content |
| Apply.ApplySucceeds | main.js:111-112 | Present, distinct sources and free, distinct targets, none refused, make every item succeed |
| Apply.ApplyRenamesOf | main.js:84-132 | An empty plan returns no results and changes nothing; the handler throws exactly when the backup cannot be written, and then no rename is done; otherwise one result per plan item |
| Apply.ApplyItem | main.js:110-129 | One item's check, rename and result, equal to `ApplyOne` |
| Apply.ApplyPlan | main.js:108-131 | The rename loop equals the specification of the whole plan |
| Apply.ApplyRenames | main.js:84-132 | The handler (plan, `commonDir`, backup write, loop) equals `ApplyRenamesOf` |
| Revert.RevertOne | main.js:155-170 | Checks run in order: "Invalid mapping", then "Target to restore from not found", then "Original name already exists"; success moves `to` back to a free `from`; any failure leaves the files unchanged |
| Revert.RevertOneMessages | main.js:156-160 | Each failed check reports the handler's own message: "Invalid mapping", "Target to restore from not found", "Original name already exists" |
| Revert.RevertFrom | main.js:153-171 | The replay yields at most one result per entry; it stops only at a null entry, and otherwise yields exactly one result per entry |
| Revert.RevertDescribesEachEntry | main.js:153-171 | One result per entry up to the first null entry, in the given order, each naming its entry; the replay stops exactly when there is a null entry |
| Revert.RevertKeepsFileCount | main.js:153-171 | Reverting never destroys a file |
| Revert.RevertLeavesOthersAlone | main.js:153-171 | A file that no successful restore moved away keeps its path and content |
| Revert.Reversed | main.js:153 | Element k of the reversed copy is input element n-1-k |
| Revert.RevertRenamesOf | main.js:145-176 | A missing path or a failed read, parse or shape check yields a single failed result and no change |
| Revert.RevertRenamesMessages | main.js:148-151 | A missing path reports "No backup path provided" and a record without an `items` array reports "Invalid backup format", each as the single result. A backup file that cannot be read because it is refused gives a single refusal result and renames nothing |
| Revert.RevertSelectedOf | main.js:187-211 | A non-array or empty selection returns no results and changes nothing; the handler throws exactly when a selected entry is null |
| Revert.RevertSelectedReversesOrder | main.js:189-209 | Without null entries, result k describes selected entry n-1-k, one result per entry |
| Revert.RevertRenamesReversesOrder | main.js:151-171 | Without null items, result k of a full revert describes backup item n-1-k, one result per item |
| Revert.RevertItem | main.js:155-170 | One entry's checks, rename and result, equal to `RevertOne` |
| Revert.RevertEntries | main.js:153-171 | The loop over the reversed copy, stopping at a null entry, equals `RevertFrom` |
| Revert.ReadBackupFile | main.js:179-184 | The `read-backup` handler returns the document or the error it throws, as `ReadBackup` |
| Revert.RevertRenames | main.js:145-176 | The `revert-renames` handler equals `RevertRenamesOf` |
| Revert.RevertSelected | main.js:187-211 | The `revert-selected` handler equals `RevertSelectedOf` |
| RoundTrip.RevertFromAppend | main.js:153-171 | A replay that was not stopped continues with later entries from the state where it ended |
| RoundTrip.UndoMove | main.js:156-162 | Restoring a successful move succeeds and gives back the state before it |
| RoundTrip.RevertUndoesApply | main.js:108-171 | If every item of a batch succeeded, replaying its pairs in reverse succeeds everywhere and restores the files exactly |
| RoundTrip.ApplyRenamesWritesFirst | main.js:93-131 | When the backup can be written, the renames run on the file system that already holds it |
| RoundTrip.BackupSurvivesApply | main.js:104-131 | Under the round-trip conditions, every item succeeds and the backup file is still in place |
| RoundTrip.RevertRenamesOfRecord | main.js:148-171 | A full revert of a file holding a record replays the record's items in reverse |
| RoundTrip.RevertOfPlanEntries | main.js:153-171 | A fully successful reverse replay of a plan yields result k = restore of item n-1-k |
| RoundTrip.ApplyThenRevertOnPlan | main.js:104-171 | With the record written at a readable backup path, every item of a fresh, distinct plan succeeds, and the full revert restores the written state with result k the restore of item n-1-k |
| RoundTrip.ApplyRenamesThenRevertRenames | main.js:84-176 | Apply then full revert of its backup: every item succeeds both ways, the revert goes in reverse order, and the files end as before plus the backup file |
| RoundTrip.ReverseOrderMatters | main.js:153 | For A->B then B->C, reverse replay restores A, while replay in batch order leaves B |

## Left out

- Window lifecycle, dialogs and IPC registration (`select-folder`, `pick-backup`) are not modelled. They are user-interface glue with no logic.
- `preload.cjs` is not part of this model. It only forwards calls.
- `listFilesRecursive` and `scan-folder` are not modelled. They walk directories. The candidates they lead to are an input here.
- Directories are not modelled. Only the paths of files exist, and a missing parent directory cannot make a write fail.
- `path.resolve` is taken to be the identity, so directories are treated as already resolved.
- `path.join` does no `.`/`..` collapsing and does not merge doubled separators. The separator is `/`.
- JSON text is not modelled. A file's content is either text that does not parse or a parsed document. The document keeps only `version`, `createdAt` and `items`.
- JavaScript values in candidates and entries are typed. Empty strings stand for absent or falsy candidate fields. A non-string `from` or `to` in a backup item is not modelled.
- A `payload` that is not an array is not modelled. `payload.filter` would throw. The model takes a sequence.
- The clock is a parameter. The timestamp sanitising (`replace(/[:.]/g, "-")`) is done by the caller: `stamp` arrives already sanitised, and `createdAt` arrives as text.
- Operating-system errors are reduced to "no such file" and "refused". Refused means the path is in `denied`, which stands for permissions, busy files and similar causes. Their message text is only the error-code prefix.
- `existsSync` sees every present file, refused or not, since checking existence needs only the directory.
- `async`/`await` and concurrent access are not modelled. Execution is sequential.
- `console.log` is not modelled.
- Backup version checking is not modelled, because the code never reads `version`.
