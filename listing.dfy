/** The entry inspector (`get_file_info`) and the directory lister
    (`list_directory`). The lister walks the enumerated child names in
    order, skips hidden names and names that do not contain the search key
    case-insensitively, and describes every other child with the caller's
    parent identifier. A failing enumeration yields the empty list; a child
    whose `os.stat` fails ends the walk, and the descriptors collected so
    far are returned. */
module Listing {
  import opened Wrappers
  import opened Text
  import opened Paths
  import opened Storage
  import opened Sequences

  /** `FileListItem`. `kind` is the item's `type` field. */
  datatype Descriptor = Descriptor(
    id: string,
    parentId: Option<string>,
    name: string,
    kind: string,
    createTime: int,
    updateTime: int)

  const FolderKind: string := "folder"
  const FileKind: string := "file"

  /** `get_file_info(path, file_id, parent_id)`; `None` stands for the
      exception `os.stat` raises when the path does not resolve. */
  function FileInfo(fs: FileSystem, path: string, fileId: string, parentId: Option<string>): (r: Option<Descriptor>)
    ensures r.Some? <==> Exists(fs, path)
    ensures r.Some? ==> r.value.id == fileId && r.value.parentId == parentId
    ensures r.Some? ==> r.value.name == BaseName(path)
    ensures r.Some? ==> (r.value.kind == FolderKind <==> IsDir(fs, path))
    ensures r.Some? ==> (r.value.kind == FileKind <==> !IsDir(fs, path))
    ensures r.Some? ==> r.value.createTime == fs[path].times.created && r.value.updateTime == fs[path].times.updated
  {
    var name := BaseName(path);
    var isDir := IsDir(fs, path);
    match Stat(fs, path)
    case None => None
    case Some(t) => Some(Descriptor(fileId, parentId, name, if isDir then FolderKind else FileKind, t.created, t.updated))
  }

  /** The search filter: an empty key keeps every name, any other key keeps
      the names that contain it, ignoring ASCII case. */
  predicate MatchesSearch(searchKey: string, item: string)
  {
    searchKey == "" || Contains(Lower(item), Lower(searchKey))
  }

  /** `key` occurs in `name` once both are lower-cased: the reference
      meaning of the search filter. */
  ghost predicate OccursIgnoringCase(name: string, key: string)
  {
    exists i :: OccursAt(Lower(name), Lower(key), i)
  }

  /** A child survives both filters of the listing loop. */
  predicate Kept(searchKey: string, item: string)
  {
    !IsHidden(item) && MatchesSearch(searchKey, item)
  }

  /** The identifier given to child `item` of `directory`: its path
      relative to the base directory. */
  function ChildId(base: string, directory: string, item: string): string
  {
    RelPath(Join(directory, item), base)
  }

  /** The descriptors the loop collects from the names `items`. */
  function Collect(fs: FileSystem, base: string, directory: string, parentId: Option<string>,
                   searchKey: string, items: seq<string>): (r: seq<Descriptor>)
    ensures |r| <= |items|
    decreases |items|
  {
    if items == [] then []
    else if !Kept(searchKey, items[0]) then Collect(fs, base, directory, parentId, searchKey, items[1..])
    else
      match FileInfo(fs, Join(directory, items[0]), ChildId(base, directory, items[0]), parentId)
      case None => []
      case Some(d) => [d] + Collect(fs, base, directory, parentId, searchKey, items[1..])
  }

  /** What `list_directory(directory, parent_id, search_key)` returns. */
  function ListingOf(fs: FileSystem, base: string, directory: string, parentId: Option<string>,
                     searchKey: string): (r: seq<Descriptor>)
    ensures ListDir(fs, directory).None? ==> r == []
    ensures ListDir(fs, directory).Some? ==> |r| <= |ListDir(fs, directory).value|
  {
    match ListDir(fs, directory)
    case None => []
    case Some(items) => Collect(fs, base, directory, parentId, searchKey, items)
  }

  /** `list_directory`: the loop over the enumerated names, with the two
      `continue` filters and the `except` that returns what was built. */
  method ListDirectory(fs: FileSystem, base: string, directory: string, parentId: Option<string>,
                       searchKey: string) returns (result: seq<Descriptor>)
    ensures result == ListingOf(fs, base, directory, parentId, searchKey)
  {
    result := [];
    var listed := ListDir(fs, directory);
    if listed.None? {
      return;
    }
    var items := listed.value;
    assert items[0..] == items;
    for i := 0 to |items|
      invariant result + Collect(fs, base, directory, parentId, searchKey, items[i..])
             == Collect(fs, base, directory, parentId, searchKey, items)
    {
      var item := items[i];
      CollectStep(fs, base, directory, parentId, searchKey, items, i);
      if IsHidden(item) {
        continue;
      }
      var fullPath := Join(directory, item);
      var relativePath := RelPath(fullPath, base);
      if searchKey != "" && !Contains(Lower(item), Lower(searchKey)) {
        continue;
      }
      assert Kept(searchKey, item) && relativePath == ChildId(base, directory, item);
      var info := FileInfo(fs, fullPath, relativePath, parentId);
      if info.None? {
        return;
      }
      result := result + [info.value];
    }
    assert items[|items|..] == [];
  }

  /** One step of the walk: how the descriptors collected from `items[i..]`
      depend on `items[i]`. */
  lemma CollectStep(fs: FileSystem, base: string, directory: string, parentId: Option<string>,
                    searchKey: string, items: seq<string>, i: nat)
    requires i < |items|
    ensures !Kept(searchKey, items[i]) ==>
              Collect(fs, base, directory, parentId, searchKey, items[i..])
              == Collect(fs, base, directory, parentId, searchKey, items[i + 1..])
    ensures Kept(searchKey, items[i]) && !Exists(fs, Join(directory, items[i])) ==>
              Collect(fs, base, directory, parentId, searchKey, items[i..]) == []
    ensures Kept(searchKey, items[i]) && Exists(fs, Join(directory, items[i])) ==>
              Collect(fs, base, directory, parentId, searchKey, items[i..])
              == [FileInfo(fs, Join(directory, items[i]), ChildId(base, directory, items[i]), parentId).value]
                 + Collect(fs, base, directory, parentId, searchKey, items[i + 1..])
  {
    assert items[i..][0] == items[i] && items[i..][1..] == items[i + 1..];
  }

  /** The names that survive both filters, in enumeration order. */
  function Survivors(searchKey: string, items: seq<string>): seq<string>
    decreases |items|
  {
    if items == [] then []
    else if Kept(searchKey, items[0]) then [items[0]] + Survivors(searchKey, items[1..])
    else Survivors(searchKey, items[1..])
  }

  function NamesOf(ds: seq<Descriptor>): seq<string>
    decreases |ds|
  {
    if ds == [] then [] else [ds[0].name] + NamesOf(ds[1..])
  }

  /** The index of the first surviving child whose path does not resolve,
      the point where `os.stat` raises and the walk stops; `|items|` when
      every surviving child resolves. */
  function FirstUnresolved(fs: FileSystem, directory: string, searchKey: string, items: seq<string>): (k: nat)
    ensures k <= |items|
    ensures k < |items| ==> Kept(searchKey, items[k]) && !Exists(fs, Join(directory, items[k]))
    ensures forall j :: 0 <= j < k && Kept(searchKey, items[j]) ==> Exists(fs, Join(directory, items[j]))
    decreases |items|
  {
    if items == [] then 0
    else if Kept(searchKey, items[0]) && !Exists(fs, Join(directory, items[0])) then 0
    else 1 + FirstUnresolved(fs, directory, searchKey, items[1..])
  }

  predicate NoSeparators(items: seq<string>)
  {
    forall n :: n in items ==> Separator !in n
  }

  /** The collected names are the survivors among the names enumerated
      before the first child that does not resolve. */
  lemma {:induction false} CollectNames(fs: FileSystem, base: string, directory: string, parentId: Option<string>,
                                        searchKey: string, items: seq<string>)
    requires NoSeparators(items)
    ensures NamesOf(Collect(fs, base, directory, parentId, searchKey, items))
         == Survivors(searchKey, items[..FirstUnresolved(fs, directory, searchKey, items)])
    decreases |items|
  {
    if items != [] {
      var item := items[0];
      var k := FirstUnresolved(fs, directory, searchKey, items[1..]);
      CollectNames(fs, base, directory, parentId, searchKey, items[1..]);
      if Kept(searchKey, item) && !Exists(fs, Join(directory, item)) {
        assert items[..0] == [];
      } else {
        assert items[..k + 1] == [item] + items[1..][..k];
        if Kept(searchKey, item) {
          BaseNameOfJoin(directory, item);
        }
      }
    }
  }

  /** Every collected descriptor stands for a surviving child: its name is
      one of the enumerated names, its identifier is that child's path
      relative to the base, and its kind says whether the child is a
      directory. */
  lemma {:induction false} CollectEntries(fs: FileSystem, base: string, directory: string, parentId: Option<string>,
                                          searchKey: string, items: seq<string>)
    requires NoSeparators(items)
    ensures forall d :: d in Collect(fs, base, directory, parentId, searchKey, items) ==>
              && d.name in items
              && Kept(searchKey, d.name)
              && d.id == ChildId(base, directory, d.name)
              && (d.kind == FolderKind <==> IsDir(fs, Join(directory, d.name)))
              && (d.kind == FileKind <==> !IsDir(fs, Join(directory, d.name)))
    decreases |items|
  {
    if items != [] {
      CollectEntries(fs, base, directory, parentId, searchKey, items[1..]);
      if Kept(searchKey, items[0]) {
        BaseNameOfJoin(directory, items[0]);
      }
    }
  }

  /** Every collected descriptor carries the caller's parent identifier. */
  lemma {:induction false} CollectParents(fs: FileSystem, base: string, directory: string, parentId: Option<string>,
                                          searchKey: string, items: seq<string>)
    ensures forall d :: d in Collect(fs, base, directory, parentId, searchKey, items) ==> d.parentId == parentId
    decreases |items|
  {
    if items != [] {
      CollectParents(fs, base, directory, parentId, searchKey, items[1..]);
    }
  }

  /** The survivors among a prefix of the names are a prefix of all the
      survivors. */
  lemma {:induction false} SurvivorsOfPrefix(searchKey: string, items: seq<string>, k: nat)
    requires k <= |items|
    ensures Survivors(searchKey, items[..k]) <= Survivors(searchKey, items)
    decreases |items|
  {
    if k > 0 {
      assert items[..k][0] == items[0] && items[..k][1..] == items[1..][..k - 1];
      SurvivorsOfPrefix(searchKey, items[1..], k - 1);
    }
  }

  /** Filtering keeps the survivors in enumeration order. */
  lemma {:induction false} SurvivorsAreSubsequence(searchKey: string, items: seq<string>)
    ensures IsSubsequence(Survivors(searchKey, items), items)
    decreases |items|
  {
    if items != [] {
      SurvivorsAreSubsequence(searchKey, items[1..]);
    }
  }

  /** With an empty search key a name survives exactly when it is one of
      the names and is not hidden. */
  lemma {:induction false} SurvivorsOfEmptyKey(items: seq<string>)
    ensures forall n :: n in Survivors("", items) <==> n in items && !IsHidden(n)
    decreases |items|
  {
    if items != [] {
      SurvivorsOfEmptyKey(items[1..]);
      assert items == [items[0]] + items[1..];
    }
  }

  /** The operating system never hands out a name with a separator. */
  lemma EnumeratedNames(fs: FileSystem, directory: string)
    requires WellFormed(fs) && ListDir(fs, directory).Some?
    ensures NoSeparators(ListDir(fs, directory).value)
  {
  }

  /** Error policy of the listing: a directory that cannot be enumerated
      gives the empty list; otherwise the walk yields the survivors among
      the names before the first child whose `os.stat` fails, which is a
      prefix of what a walk without failures yields. */
  lemma ListingErrorPolicy(fs: FileSystem, base: string, directory: string, parentId: Option<string>,
                           searchKey: string)
    requires WellFormed(fs)
    ensures ListDir(fs, directory).None? ==> ListingOf(fs, base, directory, parentId, searchKey) == []
    ensures ListDir(fs, directory).Some? ==>
              var items := ListDir(fs, directory).value;
              var names := NamesOf(ListingOf(fs, base, directory, parentId, searchKey));
              && names == Survivors(searchKey, items[..FirstUnresolved(fs, directory, searchKey, items)])
              && names <= Survivors(searchKey, items)
  {
    if ListDir(fs, directory).Some? {
      var items := ListDir(fs, directory).value;
      EnumeratedNames(fs, directory);
      CollectNames(fs, base, directory, parentId, searchKey, items);
      SurvivorsOfPrefix(searchKey, items, FirstUnresolved(fs, directory, searchKey, items));
    }
  }

  /** When every surviving child resolves, the listing names exactly the
      surviving children; with an empty search key those are all the
      children that are not hidden. */
  lemma ListingIsComplete(fs: FileSystem, base: string, directory: string, parentId: Option<string>,
                          searchKey: string)
    requires WellFormed(fs) && ListDir(fs, directory).Some?
    requires forall n :: n in ListDir(fs, directory).value && Kept(searchKey, n) ==> Exists(fs, Join(directory, n))
    ensures NamesOf(ListingOf(fs, base, directory, parentId, searchKey)) == Survivors(searchKey, ListDir(fs, directory).value)
    ensures searchKey == "" ==>
              forall n :: n in NamesOf(ListingOf(fs, base, directory, parentId, searchKey))
                          <==> n in ListDir(fs, directory).value && !IsHidden(n)
  {
    var items := ListDir(fs, directory).value;
    var k := FirstUnresolved(fs, directory, searchKey, items);
    ListingErrorPolicy(fs, base, directory, parentId, searchKey);
    assert items[..k] == items;
    SurvivorsOfEmptyKey(items);
  }

  /** No listed name is hidden. */
  lemma ListingSkipsHidden(fs: FileSystem, base: string, directory: string, parentId: Option<string>,
                           searchKey: string)
    requires WellFormed(fs)
    ensures forall d :: d in ListingOf(fs, base, directory, parentId, searchKey) ==> !IsHidden(d.name)
  {
    if ListDir(fs, directory).Some? {
      EnumeratedNames(fs, directory);
      CollectEntries(fs, base, directory, parentId, searchKey, ListDir(fs, directory).value);
    }
  }

  /** With a non-empty search key every listed name contains the key,
      both lower-cased. */
  lemma ListingMatchesSearchKey(fs: FileSystem, base: string, directory: string, parentId: Option<string>,
                                searchKey: string)
    requires WellFormed(fs) && searchKey != ""
    ensures forall d :: d in ListingOf(fs, base, directory, parentId, searchKey) ==>
              OccursIgnoringCase(d.name, searchKey)
  {
    if ListDir(fs, directory).Some? {
      EnumeratedNames(fs, directory);
      CollectEntries(fs, base, directory, parentId, searchKey, ListDir(fs, directory).value);
      forall d | d in ListingOf(fs, base, directory, parentId, searchKey)
        ensures OccursIgnoringCase(d.name, searchKey)
      {
        assert Kept(searchKey, d.name);
        ContainsIff(Lower(d.name), Lower(searchKey));
      }
    }
  }

  /** Every descriptor of one listing carries the parent identifier the
      caller passed, whatever the child's own path. */
  lemma ListingSharesParent(fs: FileSystem, base: string, directory: string, parentId: Option<string>,
                            searchKey: string)
    ensures forall d :: d in ListingOf(fs, base, directory, parentId, searchKey) ==> d.parentId == parentId
  {
    if ListDir(fs, directory).Some? {
      CollectParents(fs, base, directory, parentId, searchKey, ListDir(fs, directory).value);
    }
  }

  /** Every listed descriptor stands for an enumerated child: its
      identifier is the child's path relative to the base and its kind is
      "folder" exactly when the child is a directory. */
  lemma ListingDescribesChildren(fs: FileSystem, base: string, directory: string, parentId: Option<string>,
                                 searchKey: string)
    requires WellFormed(fs)
    ensures forall d :: d in ListingOf(fs, base, directory, parentId, searchKey) ==>
              && ListDir(fs, directory).Some?
              && d.name in ListDir(fs, directory).value
              && d.id == ChildId(base, directory, d.name)
              && (d.kind == FolderKind <==> IsDir(fs, Join(directory, d.name)))
              && (d.kind == FileKind <==> !IsDir(fs, Join(directory, d.name)))
  {
    if ListDir(fs, directory).Some? {
      var items := ListDir(fs, directory).value;
      EnumeratedNames(fs, directory);
      CollectEntries(fs, base, directory, parentId, searchKey, items);
    }
  }

  /** The listed names are an order-preserving subsequence of the
      enumerated names: nothing is reordered and nothing is duplicated. */
  lemma ListingIsOrderedSubsequence(fs: FileSystem, base: string, directory: string, parentId: Option<string>,
                                    searchKey: string)
    requires WellFormed(fs) && ListDir(fs, directory).Some?
    ensures IsSubsequence(NamesOf(ListingOf(fs, base, directory, parentId, searchKey)), ListDir(fs, directory).value)
    ensures Distinct(ListDir(fs, directory).value) ==>
              Distinct(NamesOf(ListingOf(fs, base, directory, parentId, searchKey)))
  {
    var items := ListDir(fs, directory).value;
    var k := FirstUnresolved(fs, directory, searchKey, items);
    var names := NamesOf(ListingOf(fs, base, directory, parentId, searchKey));
    ListingErrorPolicy(fs, base, directory, parentId, searchKey);
    SurvivorsAreSubsequence(searchKey, items[..k]);
    SubsequenceOfLonger(names, items[..k], items[k..]);
    assert items[..k] + items[k..] == items;
    if Distinct(items) {
      SubsequenceDistinct(names, items);
    }
  }

  /** The search filter is case-insensitive substring matching, in both
      directions. */
  lemma SearchIsCaseInsensitiveSubstring(searchKey: string, name: string)
    ensures MatchesSearch(searchKey, name) <==> searchKey == "" || OccursIgnoringCase(name, searchKey)
  {
    ContainsIff(Lower(name), Lower(searchKey));
  }

  /** A name that holds the key anywhere, in any mix of ASCII case, passes
      the filter (for instance "ABCfile.txt" for the key "abc"). */
  lemma SearchIgnoresCase(searchKey: string, before: string, spelled: string, after: string)
    requires Lower(spelled) == Lower(searchKey)
    ensures MatchesSearch(searchKey, before + spelled + after)
  {
    var name := before + spelled + after;
    LowerAppend(before + spelled, after);
    LowerAppend(before, spelled);
    LowerAt(before);
    LowerAt(spelled);
    var lowered := Lower(name);
    assert lowered[|before|..|before| + |spelled|] == Lower(searchKey);
    assert OccursAt(lowered, Lower(searchKey), |before|);
    SearchIsCaseInsensitiveSubstring(searchKey, name);
  }

  /** The filter drops "xyz.txt" for the key "abc". */
  lemma SearchDropsNonMatching()
    ensures !MatchesSearch("abc", "xyz.txt")
  {
    var name, key := "xyz.txt", "abc";
    LowerAt(name);
    LowerAt(key);
    forall i | 0 <= i <= |name| - 3 ensures !OccursAt(Lower(name), Lower(key), i) {
      assert Lower(name)[i] != 'a' == Lower(key)[0];
      assert Lower(name)[i..i + 3][0] == Lower(name)[i];
    }
    SearchIsCaseInsensitiveSubstring(key, name);
  }
}
