/** `ZipArchiveResourceManager`: the life cycle of a manager that unpacks an
    archive into a working directory, and the guard every operation runs.

    The file system is abstract: the set of directories and the set of files
    that exist, each named by its path components. */
module ZipArchive {
  import opened Results

  type Path = seq<string>

  datatype FileSystem = FileSystem(dirs: set<Path>, files: set<Path>)

  /** `p` is `d` or lies below it. */
  predicate Under(p: Path, d: Path)
  {
    d <= p
  }

  /** The working directory and the `closed` flag, together with the file
      system they refer to. */
  datatype Manager = Manager(dir: Path, closed: bool, fs: FileSystem)

  /** The exceptions of the manager:
      - `AlreadyClosed`: the FileNotFoundException of `checkValid`;
      - `NotSupportedYet`: the UnsupportedOperationException of the
        operations that have no implementation. */
  datatype ManagerError = AlreadyClosed | NotSupportedYet

  /** The private constructor: a manager over `dir`, not closed. */
  function New(dir: Path, fs: FileSystem): (m: Manager)
    ensures !m.closed && m.dir == dir && m.fs == fs
  {
    Manager(dir, false, fs)
  }

  /** `checkValid`: the closed-state error exactly when the manager is closed
      or its working directory is not a directory. */
  function CheckValid(m: Manager): (r: Option<ManagerError>)
    ensures r.Some? <==> m.closed || m.dir !in m.fs.dirs
    ensures r.Some? ==> r.value == AlreadyClosed
  {
    if m.closed || m.dir !in m.fs.dirs then Some(AlreadyClosed) else None
  }

  predicate IsValid(m: Manager)
  {
    CheckValid(m).None?
  }

  /** `open`: after the guard, the archive's files (`entries`, relative paths)
      are extracted into the working directory and `closed` is cleared. */
  function Open(m: Manager, entries: set<Path>): (r: Result<Manager, ManagerError>)
    ensures r.Err? <==> !IsValid(m)
    ensures r.Err? ==> r.error == AlreadyClosed
    ensures r.Ok? ==> IsValid(r.value) && r.value.dir == m.dir && r.value.fs.dirs == m.fs.dirs
    ensures r.Ok? ==> forall p :: p in entries ==> m.dir + p in r.value.fs.files
    ensures r.Ok? ==> forall p :: p in m.fs.files ==> p in r.value.fs.files
  {
    match CheckValid(m)
    case Some(e) => Err(e)
    case None =>
      var extracted := set p | p in entries :: m.dir + p;
      Ok(Manager(m.dir, false, FileSystem(m.fs.dirs, m.fs.files + extracted)))
  }

  /** `openFile`: a new temporary directory `tempDir` is created, a manager
      is constructed over it and the archive is opened into it. */
  function OpenFile(fs: FileSystem, tempDir: Path, entries: set<Path>): (r: Result<Manager, ManagerError>)
    ensures r.Ok?
    ensures IsValid(r.value) && r.value.dir == tempDir
    ensures forall p :: p in entries ==> tempDir + p in r.value.fs.files
  {
    Open(New(tempDir, FileSystem(fs.dirs + {tempDir}, fs.files)), entries)
  }

  /** `Files.deleteIfExists`: removing an entry that is not there is not an
      error. */
  function DeleteIfExists(fs: FileSystem, p: Path): (r: FileSystem)
    ensures p !in r.dirs && p !in r.files
    ensures p !in fs.dirs && p !in fs.files ==> r == fs
  {
    FileSystem(fs.dirs - {p}, fs.files - {p})
  }

  /** The effect of the file-tree walk in `close`: every file under `d` is
      deleted when visited and every directory under `d`, `d` included, after
      its contents. */
  function DeleteTree(fs: FileSystem, d: Path): FileSystem
  {
    FileSystem(set p | p in fs.dirs && !Under(p, d), set p | p in fs.files && !Under(p, d))
  }

  /** `close`: the guard, then `closed` is set, the tree is walked and the
      working directory is deleted if it still exists. */
  function Close(m: Manager): (r: Result<Manager, ManagerError>)
    ensures r.Err? <==> !IsValid(m)
    ensures r.Err? ==> r.error == AlreadyClosed
    ensures r.Ok? ==> r.value.closed && r.value.dir == m.dir
    ensures r.Ok? ==> forall p :: p in r.value.fs.dirs || p in r.value.fs.files ==> !Under(p, m.dir)
    ensures r.Ok? ==> forall p :: !Under(p, m.dir) ==>
              (p in r.value.fs.dirs <==> p in m.fs.dirs) && (p in r.value.fs.files <==> p in m.fs.files)
  {
    match CheckValid(m)
    case Some(e) => Err(e)
    case None =>
      var walked := DeleteTree(m.fs, m.dir);
      Ok(Manager(m.dir, true, DeleteIfExists(walked, m.dir)))
  }

  /** Every public operation of the manager. */
  datatype Operation =
    | Flush
    | OpenArchive(entries: set<Path>)
    | Save(archive: Path)
    | GetInputStream(locator: Path)
    | GetOutputStream(locator: Path)
    | Exists(locator: Path)
    | GetProperty(locator: Path, name: string, default: string)
    | SetProperty(locator: Path, name: string, value: string)
    | HasProperty(locator: Path, name: string)
    | GetImage(locator: Path, format: string)
    | SetImage(locator: Path, format: string)
    | CloseManager

  /** The operations whose body, after the guard, only throws. */
  predicate IsStub(op: Operation)
  {
    !(op.Flush? || op.OpenArchive? || op.CloseManager?)
  }

  /** One operation on a manager: its new state, or the exception it throws. */
  function Run(m: Manager, op: Operation): (r: Result<Manager, ManagerError>)
    ensures op.Flush? ==> r == Ok(m)
    ensures !op.Flush? && !IsValid(m) ==> r == Err(AlreadyClosed)
    ensures IsStub(op) ==> r.Err?
  {
    match op
    case Flush => Ok(m)
    case OpenArchive(entries) => Open(m, entries)
    case CloseManager => Close(m)
    case _ =>
      match CheckValid(m)
      case Some(e) => Err(e)
      case None => Err(NotSupportedYet)
  }

  /** On a valid manager, an operation without implementation fails with
      UnsupportedOperationException, and not with the closed-state error. */
  lemma StubsNotSupported(m: Manager, op: Operation)
    requires IsValid(m) && IsStub(op)
    ensures Run(m, op) == Err(NotSupportedYet)
  {
  }

  /** After a successful `close`, every operation but `flush` fails with the
      closed-state error. */
  lemma ClosedManagerRefuses(m: Manager, op: Operation)
    requires Close(m).Ok?
    ensures op.Flush? ==> Run(Close(m).value, op) == Ok(Close(m).value)
    ensures !op.Flush? ==> Run(Close(m).value, op) == Err(AlreadyClosed)
  {
    assert !IsValid(Close(m).value);
  }

  /** `close` is not idempotent: a second `close` fails. */
  lemma CloseTwiceFails(m: Manager)
    requires Close(m).Ok?
    ensures Close(Close(m).value) == Err(AlreadyClosed)
  {
    ClosedManagerRefuses(m, CloseManager);
  }

  /** `open` on a valid manager leaves it valid and open; `open` after
      `close` fails. */
  lemma OpenKeepsOpen(m: Manager, entries: set<Path>)
    requires IsValid(m)
    ensures Run(m, OpenArchive(entries)).Ok?
    ensures !Run(m, OpenArchive(entries)).value.closed
    ensures Close(m).Ok? ==> Run(Close(m).value, OpenArchive(entries)) == Err(AlreadyClosed)
  {
    if Close(m).Ok? {
      ClosedManagerRefuses(m, OpenArchive(entries));
    }
  }

  /** Closing removes the working directory itself, so the manager also fails
      the directory half of the guard. */
  lemma CloseRemovesWorkingDir(m: Manager)
    requires Close(m).Ok?
    ensures m.dir !in Close(m).value.fs.dirs
  {
    assert Under(m.dir, m.dir);
  }
}
