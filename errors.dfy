/** The errors the main process produces or meets, and how a handler ends. */
module Errors {
  import opened Paths

  datatype Error =
    | NoSuchFile(path: Path)     // ENOENT from the file system
    | AccessDenied(path: Path)   // the file system refuses to touch the path (EACCES, EPERM, EBUSY, ...)
    | TargetExists
    | InvalidMapping
    | RestoreSourceMissing
    | RestoreTargetOccupied
    | InvalidBackupFormat
    | NoBackupPath
    | NotJson                    // JSON.parse rejected the file's text
    | NullDocument               // the file holds `null`, so reading its `items` throws
    | NullItem                   // an item is null, so destructuring `{ from, to }` throws

  /** The `message` of the thrown error; the engine's own messages verbatim. */
  function Message(e: Error): string
  {
    match e
    case NoSuchFile(_) => "ENOENT: no such file or directory"
    case AccessDenied(_) => "EACCES: permission denied"
    case TargetExists => "Target already exists"
    case InvalidMapping => "Invalid mapping"
    case RestoreSourceMissing => "Target to restore from not found"
    case RestoreTargetOccupied => "Original name already exists"
    case InvalidBackupFormat => "Invalid backup format"
    case NoBackupPath => "No backup path provided"
    case NotJson => "Unexpected token in JSON"
    case NullDocument => "Cannot read properties of null (reading 'items')"
    case NullItem => "Cannot destructure property 'from' of 'item' as it is null."
  }

  /** How an IPC handler ends: it returns a value, or the promise rejects. */
  datatype Reply<+T> = Returned(value: T) | Threw(error: Error)
}
