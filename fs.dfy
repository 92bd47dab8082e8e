/**
 * The file system as the engine sees it: a map from existing paths to their
 * contents, and the paths the operating system refuses to touch.
 */
module Fs {
  import opened Wrappers
  import opened Paths
  import opened Errors
  import opened Json

  /** A file's content: text that is not JSON, or a parsed JSON document. */
  datatype Content = Raw(text: string) | Parsed(doc: Document)

  type Files = map<Path, Content>

  /** A value computed by an operation, with the file system it leaves. */
  datatype Outcome<+T> = Outcome(value: T, files: Files)

  /** `after` is `before` with the file at `from` moved to the free name `to`. */
  ghost predicate Moved(before: Files, after: Files, from: Path, to: Path)
  {
    from in before && to !in before && after == (before - {from})[to := before[from]]
  }

  /** A move onto a free name neither creates nor destroys a file. */
  lemma MovedKeepsCount(before: Files, after: Files, from: Path, to: Path)
    requires Moved(before, after, from, to)
    ensures |after| == |before|
  {
    var rest := before - {from};
    assert rest.Keys == before.Keys - {from};
    assert |rest.Keys| == |before.Keys| - 1;
    assert to !in rest;
  }

  /**
   * `fs.rename(from, to)`: fails when `from` does not exist or the system
   * refuses either path; otherwise the content moves to `to`, replacing
   * whatever was there (POSIX rename).
   */
  function RenameIn(files: Files, denied: set<Path>, from: Path, to: Path): (r: Result<Files, Error>)
    ensures r.Success? <==> from in files && from !in denied && to !in denied
    ensures r.Success? && to !in files ==> Moved(files, r.value, from, to)
  {
    if from !in files then Failure(NoSuchFile(from))
    else if from in denied then Failure(AccessDenied(from))
    else if to in denied then Failure(AccessDenied(to))
    else Success((files - {from})[to := files[from]])
  }

  /** `fs.writeFile(path, content)`: creates or replaces the file unless refused. */
  function WriteIn(files: Files, denied: set<Path>, path: Path, c: Content): (r: Result<Files, Error>)
    ensures r.Success? <==> path !in denied
    ensures r.Success? ==> r.value.Keys == files.Keys + {path} && r.value[path] == c
    ensures r.Success? ==> forall q :: q in files && q != path ==> r.value[q] == files[q]
  {
    if path in denied then Failure(AccessDenied(path)) else Success(files[path := c])
  }

  /** `fs.readFile(path)`: fails when the file is missing or the system refuses it. */
  function ReadIn(files: Files, denied: set<Path>, path: Path): (r: Result<Content, Error>)
    ensures r.Success? <==> path in files && path !in denied
    ensures r.Success? ==> r.value == files[path]
  {
    if path !in files then Failure(NoSuchFile(path))
    else if path in denied then Failure(AccessDenied(path))
    else Success(files[path])
  }

  class FileSystem {
    var files: Files
    const denied: set<Path>

    constructor (files: Files, denied: set<Path>)
      ensures this.files == files && this.denied == denied
    {
      this.files := files;
      this.denied := denied;
    }

    /** `fssync.existsSync(p)`. */
    predicate Exists(p: Path)
      reads this
    {
      p in files
    }

    method Rename(from: Path, to: Path) returns (err: Option<Error>)
      modifies this
      ensures match RenameIn(old(files), denied, from, to)
              case Success(f) => err == None && files == f
              case Failure(e) => err == Some(e) && files == old(files)
    {
      match RenameIn(files, denied, from, to)
      case Success(f) =>
        files := f;
        err := None;
      case Failure(e) =>
        err := Some(e);
    }

    method WriteFile(path: Path, c: Content) returns (err: Option<Error>)
      modifies this
      ensures match WriteIn(old(files), denied, path, c)
              case Success(f) => err == None && files == f
              case Failure(e) => err == Some(e) && files == old(files)
    {
      match WriteIn(files, denied, path, c)
      case Success(f) =>
        files := f;
        err := None;
      case Failure(e) =>
        err := Some(e);
    }

    method ReadFile(path: Path) returns (r: Result<Content, Error>)
      ensures r == ReadIn(files, denied, path)
    {
      if path !in files {
        r := Failure(NoSuchFile(path));
      } else if path in denied {
        r := Failure(AccessDenied(path));
      } else {
        r := Success(files[path]);
      }
    }
  }
}
