# FastGPT file API connector — Dafny model

This project models the decision logic of a small HTTP file connector
(`main.py`). The connector serves a folder tree under a fixed base
directory (`resources` next to the program). Requests carry a static
bearer token. It answers three endpoints:

- `POST /v1/file/list` lists one folder;
- `GET /v1/file/content` returns a file's text;
- `GET /v1/file/read` returns a link to a file.

The filesystem is an abstract value. `Storage.FileSystem` maps an absolute
path to a `File` or a `Folder`. A folder carries the child names that
`os.listdir` reports, in order, or the fact that enumerating it fails. A
file carries the outcome of reading it as text. A listed child whose path
is not in the map stands for an entry on which `os.stat` fails (a dangling
link, an entry removed after enumeration). The base directory is a
parameter `base`, because the program computes it at start-up.

Modules:

- `Text`: the hidden-name test, ASCII lower-casing, substring search (`in`).
- `Paths`: `os.path.join`, `basename`, `relpath` and `get_absolute_path`.
- `Storage`: the abstract filesystem and the `os` calls read from it.
- `Sequences`: subsequences and duplicate-free sequences.
- `Listing`: `get_file_info`, and `list_directory`. `list_directory` is
  the imperative method `ListDirectory`, proved equal to the function
  `ListingOf`; the properties of the listing are lemmas about `ListingOf`.
- `Handlers`: `verify_token` and the envelope each endpoint builds.

The primitives of the abstraction carry no contract of their own, and
the rows that use them state what they mean:
- `Storage.Exists` is `os.path.exists`, and `Storage.IsDir` is
  `os.path.isdir`.
- `Storage.ReadText` is `open(...).read()`.
- `Text.IsHidden` is the leading-dot test (`main.py:107`).
- `Handlers.HasParent` is the truthiness of `parentId` (`main.py:136`).
- `Handlers.SearchKeyOf` is `request.searchKey or ""` (`main.py:146`).

Behaviour of the code that the model keeps as it is:

- A child whose `os.stat` fails ends the walk. The descriptors collected
  before it are returned, not an empty list (`main.py:121-126`).
- `file_list` passes the request's `parentId` through unchanged
  (`main.py:146`). An empty-string `parentId` lists the base directory,
  and every item then carries `parentId == ""` rather than no parent.
- A request whose credential is wrong gets 401 before any filesystem value
  is consulted. Listing twice against the same filesystem gives the same
  answer, because every operation is a function of its inputs.

## Model

| member | source | states |
|---|---|---|
| `Text.LowerChar` | main.py:117 | lower-casing maps an ASCII capital to its small letter (code + 32), keeps every other character, and never yields a capital |
| `Text.LowerAt` | main.py:117 | `str.lower()` on ASCII keeps the length and lower-cases each character in place |
| `Text.LowerAppend` | main.py:117 | lower-casing a concatenation lower-cases each part |
| `Text.ContainsIff` | main.py:117 | the `in` test used by the search filter holds exactly when the key occurs at some index of the name |
| `Paths.Join` | main.py:73 | `os.path.join` with an absolute second argument returns that argument, discarding the directory |
| `Paths.JoinAppends` | main.py:110 | joining a relative name puts it at the end; before it comes the directory unchanged when the directory is empty or already ends with a separator, and otherwise the directory followed by one separator |
| `Paths.BaseNameIsLastSegment` | main.py:80 | `basename` is the longest separator-free suffix of the path |
| `Paths.BaseNameOfJoin` | main.py:80 | the base name of `directory/item` is `item` for every enumerated name |
| `Paths.RelPath` | main.py:111-114 | for a path under the root, the result is what follows the root and its separator; any other path comes back unchanged (no normalisation) |
| `Paths.RelPathUnderRoot` | main.py:111-114 | the path relative to the root of `root/rest` is `rest` |
| `Paths.AbsolutePath` | main.py:69-73 | no check is made: an absolute identifier resolves to itself, ignoring the base; a relative identifier gives the string `base/` followed by the identifier (unresolved, so a `..` segment still leaves the base), and taking that string relative to the base gives the identifier back |
| `Paths.JoinUnderRoot` | main.py:110-114 | joining a child name onto the folder `base/parent` equals `base/` followed by the join of `parent` and the name |
| `Paths.ChildIdentifier` | main.py:110-114 | a child of the base gets its own name as identifier; a child of the folder with relative identifier `parent` gets the join of `parent` and the name (not normalised) |
| `Storage.ListDir` | main.py:105 | `os.listdir` succeeds only on a directory that can be enumerated and then yields its names in order |
| `Storage.Stat` | main.py:82 | `os.stat` succeeds exactly on existing paths |
| `Listing.FileInfo` | main.py:76-95 | `stat` failure exactly on missing paths; otherwise `id`, `parentId` are the arguments, `name` is the base name, `type` is `"folder"` exactly when the path is a directory and `"file"` otherwise, times from the path's metadata |
| `Listing.Collect` | main.py:105-122 | the recursive form of the loop over the enumerated names: one descriptor at most per name, stopping at the first kept name whose `stat` fails; its contents are stated by `CollectNames`, `CollectEntries` and `CollectParents` |
| `Listing.ListingOf` | main.py:98-126 | `Collect` applied to the enumerated names: the listing is empty when enumeration fails, and never longer than the enumeration |
| `Listing.ListDirectory` | main.py:98-126 | the loop with its two `continue` filters and its `except` returns exactly `ListingOf`: the empty list when enumeration fails, else the descriptors of the surviving children up to the first failing `stat` |
| `Listing.CollectStep` | main.py:105-122 | one loop iteration: a filtered child adds nothing, a failing `stat` ends the list, any other child adds its descriptor in front of the rest |
| `Listing.FirstUnresolved` | main.py:121-123 | the index where the walk stops is the first surviving child that does not resolve; every surviving child before it resolves |
| `Listing.CollectNames` | main.py:105-122 | the collected names are the survivors of the two filters among the names before the first failing child |
| `Listing.CollectEntries` | main.py:110-122 | each collected descriptor is a surviving enumerated child, with its relative path as id and its kind given by `isdir` |
| `Listing.CollectParents` | main.py:121 | each collected descriptor carries the caller's `parent_id` |
| `Listing.SurvivorsOfPrefix` | main.py:123-126 | what is listed before a failure is a prefix of what a walk without failure lists |
| `Listing.SurvivorsAreSubsequence` | main.py:105-122 | filtering keeps the surviving names in enumeration order |
| `Listing.SurvivorsOfEmptyKey` | main.py:117 | with an empty search key a name survives exactly when it is enumerated and not hidden |
| `Listing.SearchIsCaseInsensitiveSubstring` | main.py:117-118 | a name passes the search filter exactly when the key is empty or occurs in the name ignoring ASCII case |
| `Listing.SearchIgnoresCase` | main.py:117-118 | a name holding the key anywhere, in any mix of ASCII case, passes the filter (`ABCfile.txt` for the key `abc`) |
| `Listing.SearchDropsNonMatching` | main.py:117-118 | the key `abc` drops `xyz.txt` |
| `Listing.ListingErrorPolicy` | main.py:104-126 | enumeration failure gives `[]`; otherwise the names listed are the survivors before the first failing `stat`, a prefix of the full survivors |
| `Listing.ListingIsComplete` | main.py:102-126 | when every surviving child resolves, the listing names exactly the survivors; with an empty key, exactly the non-hidden children |
| `Listing.ListingSkipsHidden` | main.py:107-108 | no listed name starts with `.` |
| `Listing.ListingMatchesSearchKey` | main.py:117-118 | with a non-empty key every listed name contains the key once both are lower-cased |
| `Listing.ListingSharesParent` | main.py:121 | every descriptor of one listing has `parentId` equal to the `parent_id` argument |
| `Listing.ListingDescribesChildren` | main.py:110-122 | every listed descriptor is an enumerated child, with its relative path as id and `type` `"folder"` exactly for directories |
| `Listing.ListingIsOrderedSubsequence` | main.py:102-122 | listed names are an order-preserving subsequence of the enumerated names and hold no duplicates when the enumeration holds none |
| `Handlers.VerifyToken` | main.py:27-34 | accepts exactly `API_TOKEN` and returns it; every other credential is refused with status 401 and a `Bearer` challenge |
| `Handlers.Ok` | main.py:61-65 | a default `ResponseModel` has code 200, `success` true and the given data |
| `Handlers.ListBody` | main.py:130-148 | the list envelope always carries a list, and `success` holds exactly when the code is 200 |
| `Handlers.ContentBody` | main.py:151-170 | the content envelope has code 200, 404 or 500, and `success` exactly when 200 |
| `Handlers.ReadBody` | main.py:173-187 | the read envelope has code 200 or 404, and `success` exactly when 200 |
| `Handlers.Guarded` | main.py:27-34 | the handler body is answered exactly when the token is accepted, and unchanged |
| `Handlers.FileList` | main.py:130-148 | behind `Depends(verify_token)`: 401 exactly for a wrong credential; otherwise a list envelope with code 404 exactly when a non-empty `parentId` is not a directory, else 200 |
| `Handlers.FileContent` | main.py:151-170 | behind `Depends(verify_token)`: 401 exactly for a wrong credential; otherwise 404 exactly when the path is missing or a directory; a 200 carries the content, a 500 carries `{}` |
| `Handlers.FileRead` | main.py:173-187 | behind `Depends(verify_token)`: 401 exactly for a wrong credential; otherwise 404 exactly when the path is missing or a directory, else 200 with the link built from the identifier |
| `Handlers.WrongTokenRejected` | main.py:28-33 | a wrong credential gets 401 from all three endpoints, and the same answer whatever the filesystem |
| `Handlers.ListDecision` | main.py:136-148 | 404 with empty data exactly when a non-empty `parentId` is not a directory; otherwise 200 with the listing of that directory, or of the base when `parentId` is absent or empty |
| `Handlers.ListFolderByIdentifier` | main.py:136-148 | listing, by a relative identifier and with no key, an existing folder that can be enumerated and whose every non-hidden child resolves lists exactly its non-hidden children, each with that `parentId` and as id the identifier joined with the name |
| `Handlers.FileEndpointsAgreeOnNotFound` | main.py:156-159 | both file endpoints answer 404 exactly when the path is missing or a directory, with the same envelope |
| `Handlers.ContentOfFile` | main.py:161-170 | a readable file's text is returned unchanged with 200; a failed read gives 500, empty data and the message prefix followed by the reason |
| `Handlers.ReadLinkEmbedsIdentifier` | main.py:183-187 | the link is `http://localhost:8000/files/` followed by the identifier, which can be read back from it |

## Left out

- FastAPI routing, dependency injection, CORS middleware, the `/` liveness
  route and the uvicorn start-up (`main.py:11-20`, `main.py:190-196`). They
  are framework wiring.
- A missing or malformed `Authorization` header is rejected by the
  framework's `HTTPBearer` before `verify_token` runs. The model starts
  from the credential string.
- Real `os.listdir`, `os.stat`, `os.path.isdir`, `os.path.exists` and
  `open`/`read` are lookups in the abstract filesystem. `os.stat` fails
  only on a path absent from it. Other causes (permission on one entry, a
  race between `isdir` and `stat`) are not distinguished.
- `datetime.fromtimestamp` (`main.py:85-86`) raises on an out-of-range
  `st_ctime` or `st_mtime`. That also ends the walk through the `except`
  at `main.py:123`. The model shows such a child only as one absent from
  the map, like a failing `os.stat`.
- UTF-8 decoding: a file holds either its text or a read error with a
  message. Only the mapping to 200 or 500 is modelled.
- Timestamps: `st_ctime` and `st_mtime` are opaque integers copied into
  the descriptor. The `datetime.fromtimestamp` conversion is floating
  point and platform dependent.
- Path normalisation: `os.path.join` is modelled as POSIX Python defines
  it for two arguments, but `.`, `..` and doubled separators are never
  resolved.
- Paths.RelPath: modelled only for paths under the base. Real `relpath`
  normalises and returns a `..`-prefixed path for a path outside the
  base; the model returns such a path unchanged. `file_list` with an
  absolute `parentId` such as `/tmp` reaches this case.
- Paths.AbsolutePath, Paths.ChildIdentifier, Handlers.ListFolderByIdentifier:
  the round trip and the child identifiers are stated for relative
  identifiers only. An absolute identifier resolves to itself, ignoring
  the base, and the child identifiers it yields are not modelled like
  `relpath`'s. A relative identifier gives the string `base/` followed by
  the identifier. The model's paths are unresolved strings, so it cannot
  show that `../main.py` names a file outside the base once the system
  resolves `..`; `file_content` and `file_read` serve such a file. For a non-normalised identifier such as `a/../b`, the model
  gives the child `x` the id `a/../b/x`, where `relpath` gives `b/x`.
- No containment check is added: like the code, any identifier resolves,
  an absolute one or one with `..` segments included.
- Paths.RelPathUnderRoot: the identity holds in the program only for a
  non-empty, normalised `rest`. Real `relpath` returns `normpath(rest)`:
  `.` for an empty `rest`, `x` for `x/`, `b` for `a/../b`. The model
  returns `rest` unchanged.
- Case folding covers ASCII letters only; full Unicode `str.lower()` is
  not modelled.
- The `print` of a listing error (`main.py:124`) is output only.
- The human-readable `message` of a 500 response uses the exception's
  text, modelled as an opaque reason string.
