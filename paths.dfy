/** Path arithmetic of the connector, modelled on plain strings with `/` as
    the only separator: `os.path.join` as POSIX Python defines it for two
    arguments, `os.path.basename`, `os.path.relpath` for paths under a
    root, and the identifier resolver `get_absolute_path`. No path is
    normalised: `.` and `..` segments and doubled separators stay as they
    are. */
module Paths {

  const Separator: char := '/'

  predicate IsAbsolute(p: string)
  {
    |p| > 0 && p[0] == Separator
  }

  /** `os.path.join(dir, name)`: an absolute `name` replaces `dir`;
      otherwise `name` is appended, after a separator unless `dir` is empty
      or already ends with one. */
  function Join(dir: string, name: string): (r: string)
    ensures IsAbsolute(name) ==> r == name
  {
    if IsAbsolute(name) then name
    else if dir == [] || dir[|dir| - 1] == Separator then dir + name
    else dir + [Separator] + name
  }

  /** A relative name ends the joined path, and what comes before it is the
      directory, followed by a separator unless the directory is empty or
      already ends with one; so a non-empty directory and the name are
      always separated by exactly one boundary. */
  lemma JoinAppends(dir: string, name: string)
    requires !IsAbsolute(name)
    ensures |Join(dir, name)| >= |name|
    ensures Join(dir, name)[|Join(dir, name)| - |name|..] == name
    ensures dir == [] || dir[|dir| - 1] == Separator ==> Join(dir, name)[..|Join(dir, name)| - |name|] == dir
    ensures dir != [] && dir[|dir| - 1] != Separator ==> Join(dir, name)[..|Join(dir, name)| - |name|] == dir + [Separator]
    ensures dir != [] ==> |Join(dir, name)| > |name| && Join(dir, name)[|Join(dir, name)| - |name| - 1] == Separator
  {
  }

  /** `os.path.basename(p)`: everything after the last separator. */
  function BaseName(p: string): string
    decreases |p|
  {
    if p == [] then []
    else if p[|p| - 1] == Separator then []
    else BaseName(p[..|p| - 1]) + [p[|p| - 1]]
  }

  /** The base name is the longest suffix of the path that holds no
      separator: it is a suffix, it has no separator, and it is either the
      whole path or preceded by a separator. */
  lemma {:induction false} BaseNameIsLastSegment(p: string)
    ensures Separator !in BaseName(p)
    ensures |BaseName(p)| <= |p| && p[|p| - |BaseName(p)|..] == BaseName(p)
    ensures |BaseName(p)| < |p| ==> p[|p| - |BaseName(p)| - 1] == Separator
    decreases |p|
  {
    if p != [] && p[|p| - 1] != Separator {
      var q := p[..|p| - 1];
      BaseNameIsLastSegment(q);
      var r := BaseName(q);
      assert BaseName(p) == r + [p[|p| - 1]];
      assert p[|p| - |r| - 1..] == q[|q| - |r|..] + [p[|p| - 1]];
    }
  }

  /** The base name of a child path is the child's own name. */
  lemma BaseNameOfJoin(dir: string, name: string)
    requires Separator !in name
    ensures BaseName(Join(dir, name)) == name
  {
    var p := Join(dir, name);
    BaseNameIsLastSegment(p);
    var r := BaseName(p);
    assert !IsAbsolute(name);
    JoinAppends(dir, name);
    assert p[|p| - |name|..] == name;
    assert |r| <= |name|;
  }

  /** `os.path.relpath(path, root)` for a path that lies under `root`: the
      part after `root` and its separator; any other path is returned
      unchanged. */
  function RelPath(path: string, root: string): (r: string)
    ensures |root| < |path| && path[..|root| + 1] == root + [Separator] ==> root + [Separator] + r == path
    ensures !(|root| < |path| && path[..|root| + 1] == root + [Separator]) ==> r == path
  {
    var prefix := root + [Separator];
    if |prefix| <= |path| && path[..|prefix|] == prefix then path[|prefix|..] else path
  }

  /** The base directory: a non-empty absolute path without a trailing
      separator, as joining the program's directory with `resources`
      gives. */
  predicate IsBase(base: string)
  {
    IsAbsolute(base) && base[|base| - 1] != Separator
  }

  /** `get_absolute_path`: the base directory joined with the identifier.
      Nothing is checked. An absolute identifier resolves to itself,
      ignoring the base. A relative one gives the string `base/` followed
      by the identifier, and taking that string relative to the base gives
      the identifier back. The string is not resolved: a `..` segment in
      the identifier still leaves the base once the system resolves the
      path. */
  function AbsolutePath(base: string, id: string): (p: string)
    ensures IsAbsolute(id) ==> p == id
    ensures IsBase(base) && !IsAbsolute(id) ==>
              |p| > |base| && p[..|base| + 1] == base + [Separator] && RelPath(p, base) == id
  {
    Join(base, id)
  }

  /** Taking a path under the base relative to the base gives back what
      was appended to it. */
  lemma RelPathUnderRoot(root: string, rest: string)
    ensures RelPath(root + [Separator] + rest, root) == rest
  {
    assert (root + [Separator] + rest)[..|root| + 1] == root + [Separator];
  }

  /** Joining a name onto a folder under the base is joining it onto the
      folder's relative identifier, under the base. */
  lemma JoinUnderRoot(root: string, parent: string, name: string)
    requires !IsAbsolute(name)
    ensures Join(root + [Separator] + parent, name) == root + [Separator] + Join(parent, name)
  {
    if parent == [] {
      assert root + [Separator] + parent == root + [Separator];
    } else if parent[|parent| - 1] == Separator {
      assert (root + [Separator] + parent)[|root + [Separator] + parent| - 1] == Separator;
    }
  }

  /** The identifier of a child of a directory, as `list_directory`
      computes it: the child's path relative to the base. A child of the
      base is named by its own name; a child of the folder with relative
      identifier `parent` by the join of `parent` and the name. */
  lemma ChildIdentifier(base: string, parent: string, name: string)
    requires IsBase(base) && !IsAbsolute(parent) && Separator !in name
    ensures RelPath(Join(base, name), base) == name
    ensures RelPath(Join(AbsolutePath(base, parent), name), base) == Join(parent, name)
  {
    assert !IsAbsolute(name);
    RelPathUnderRoot(base, name);
    JoinUnderRoot(base, parent, name);
    RelPathUnderRoot(base, Join(parent, name));
  }
}
