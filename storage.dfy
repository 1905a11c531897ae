/** The filesystem the connector reads, as an abstract value: a map from
    absolute path to a file or a folder. A folder carries the names
    `os.listdir` reports for it, in the order reported, or the fact that
    enumerating it fails; a file carries the outcome of reading it as
    UTF-8 text. Timestamps are opaque numbers standing for `st_ctime` and
    `st_mtime`. */
module Storage {
  import opened Wrappers
  import opened Paths

  datatype Times = Times(created: int, updated: int)

  /** What `open(path, "r", encoding="utf-8").read()` gives: the text, or
      the message of the exception it raises. */
  datatype ReadOutcome = Text(text: string) | ReadError(reason: string)

  /** What `os.listdir(path)` gives on a folder: the child names in
      enumeration order, or an exception (permission denied, removed). */
  datatype Enumeration = Names(names: seq<string>) | EnumerationError

  datatype Node =
    | File(times: Times, read: ReadOutcome)
    | Folder(times: Times, children: Enumeration)

  type FileSystem = map<string, Node>

  /** `os.path.exists(p)`. */
  predicate Exists(fs: FileSystem, p: string)
  {
    p in fs
  }

  /** `os.path.isdir(p)`: false for a missing path, never an error. */
  predicate IsDir(fs: FileSystem, p: string)
  {
    p in fs && fs[p].Folder?
  }

  /** Names the operating system hands out never contain a separator. */
  ghost predicate WellFormed(fs: FileSystem)
  {
    forall p, n :: p in fs && fs[p].Folder? && fs[p].children.Names? && n in fs[p].children.names
      ==> Separator !in n
  }

  /** `os.listdir(p)`: `None` stands for the exception it raises on a
      missing path, on a file, or on a folder that cannot be enumerated. */
  function ListDir(fs: FileSystem, p: string): (r: Option<seq<string>>)
    ensures r.Some? ==> IsDir(fs, p)
    ensures r.Some? <==> IsDir(fs, p) && fs[p].children.Names?
    ensures r.Some? ==> r.value == fs[p].children.names
  {
    if IsDir(fs, p) && fs[p].children.Names? then Some(fs[p].children.names) else None
  }

  /** `os.stat(p)`: `None` stands for the exception it raises when the
      path no longer resolves (a dangling link, an entry removed after it
      was enumerated). */
  function Stat(fs: FileSystem, p: string): (r: Option<Times>)
    ensures r.Some? <==> Exists(fs, p)
  {
    if p in fs then Some(fs[p].times) else None
  }

  /** Reading a path that exists and is not a directory. */
  function ReadText(fs: FileSystem, p: string): ReadOutcome
    requires Exists(fs, p) && !IsDir(fs, p)
  {
    fs[p].read
  }
}
