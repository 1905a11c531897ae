/** The bearer-token gate and the decision logic of the three endpoints
    `POST /v1/file/list`, `GET /v1/file/content` and `GET /v1/file/read`,
    each a function from the filesystem and the request to a response. */
module Handlers {
  import opened Wrappers
  import opened Text
  import opened Paths
  import opened Storage
  import opened Listing

  /** `API_TOKEN`, the one credential the service accepts. */
  const ApiToken: string := "your-secret-token"

  /** The `HTTPException` raised by the token gate. */
  datatype AuthError = AuthError(status: int, detail: string, wwwAuthenticate: string)

  const UnauthorizedStatus: int := 401
  const InvalidCredentialsDetail: string := "无效的认证凭据"

  /** `verify_token`: accepts exactly `API_TOKEN` and hands it back;
      every other credential is refused with 401 and a Bearer challenge. */
  function VerifyToken(credentials: string): (r: Result<string, AuthError>)
    ensures r.Success? <==> credentials == ApiToken
    ensures r.Success? ==> r.value == credentials
    ensures r.Failure? ==> r.error.status == UnauthorizedStatus && r.error.wwwAuthenticate == "Bearer"
  {
    if credentials != ApiToken then
      Failure(AuthError(UnauthorizedStatus, InvalidCredentialsDetail, "Bearer"))
    else
      Success(credentials)
  }

  /** The `data` field of a `ResponseModel`. */
  datatype Payload =
    | Items(items: seq<Descriptor>)                                  // a list of FileListItem
    | ContentData(content: Option<string>, previewUrl: Option<string>) // FileContentResponse
    | UrlData(url: string)                                           // FileReadResponse
    | EmptyObject                                                    // {}

  /** `ResponseModel`: an application-level code inside an HTTP 200. */
  datatype Envelope = Envelope(code: int, success: bool, message: string, data: Payload)

  /** An endpoint either fails at the HTTP level (the token gate) or
      answers with an envelope. */
  datatype Response = Rejected(error: AuthError) | Answered(envelope: Envelope)

  const DirectoryMissingMessage: string := "指定的目录不存在"
  const FileMissingMessage: string := "文件不存在或是一个目录"
  const ReadFailedPrefix: string := "读取文件失败: "
  const PreviewBase: string := "http://localhost:8000/files/"

  /** `ResponseModel(data=...)` with its defaults. */
  function Ok(data: Payload): (e: Envelope)
    ensures e.code == 200 && e.success && e.data == data
  {
    Envelope(200, true, "", data)
  }

  /** The body of `FileListRequest`; `searchKey` may be sent as null. */
  datatype ListRequest = ListRequest(parentId: Option<string>, searchKey: Option<string>)

  /** `request.parentId` is truthy: present and not empty. */
  predicate HasParent(request: ListRequest)
  {
    request.parentId.Some? && request.parentId.value != ""
  }

  /** A null search key counts as the empty key. */
  function SearchKeyOf(request: ListRequest): string
  {
    if request.searchKey.Some? then request.searchKey.value else ""
  }

  /** `file_list` once the token is accepted. */
  function ListBody(fs: FileSystem, base: string, request: ListRequest): (e: Envelope)
    ensures e.success <==> e.code == 200
    ensures e.data.Items?
  {
    if HasParent(request) && !IsDir(fs, AbsolutePath(base, request.parentId.value)) then
      Envelope(404, false, DirectoryMissingMessage, Items([]))
    else
      var directory := if HasParent(request) then AbsolutePath(base, request.parentId.value) else base;
      Ok(Items(ListingOf(fs, base, directory, request.parentId, SearchKeyOf(request))))
  }

  /** The guard shared by `file_content` and `file_read`: the path is
      missing or is a directory. */
  predicate NotAFile(fs: FileSystem, path: string)
  {
    !Exists(fs, path) || IsDir(fs, path)
  }

  /** `file_content` once the token is accepted. */
  function ContentBody(fs: FileSystem, base: string, id: string): (e: Envelope)
    ensures e.success <==> e.code == 200
    ensures e.code in {200, 404, 500}
  {
    var path := AbsolutePath(base, id);
    if NotAFile(fs, path) then
      Envelope(404, false, FileMissingMessage, EmptyObject)
    else
      match ReadText(fs, path)
      case Text(text) => Ok(ContentData(Some(text), None))
      case ReadError(reason) => Envelope(500, false, ReadFailedPrefix + reason, EmptyObject)
  }

  /** `file_read` once the token is accepted. */
  function ReadBody(fs: FileSystem, base: string, id: string): (e: Envelope)
    ensures e.success <==> e.code == 200
    ensures e.code in {200, 404}
  {
    var path := AbsolutePath(base, id);
    if NotAFile(fs, path) then
      Envelope(404, false, FileMissingMessage, EmptyObject)
    else
      Ok(UrlData(PreviewBase + id))
  }

  /** The token gate runs before the handler body. */
  function Guarded(credentials: string, body: Envelope): (r: Response)
    ensures r.Answered? <==> credentials == ApiToken
    ensures r.Answered? ==> r.envelope == body
  {
    match VerifyToken(credentials)
    case Failure(err) => Rejected(err)
    case Success(_) => Answered(body)
  }

  /** `POST /v1/file/list`, behind the token gate. */
  function FileList(fs: FileSystem, base: string, credentials: string, request: ListRequest): (r: Response)
    ensures r.Rejected? <==> credentials != ApiToken
    ensures r.Rejected? ==> r.error.status == UnauthorizedStatus
    ensures r.Answered? ==>
              && r.envelope.data.Items?
              && (r.envelope.success <==> r.envelope.code == 200)
              && (r.envelope.code == 404 <==>
                    HasParent(request) && !IsDir(fs, AbsolutePath(base, request.parentId.value)))
              && (r.envelope.code == 404 || r.envelope.code == 200)
  {
    Guarded(credentials, ListBody(fs, base, request))
  }

  /** `GET /v1/file/content?id=...`, behind the token gate. */
  function FileContent(fs: FileSystem, base: string, credentials: string, id: string): (r: Response)
    ensures r.Rejected? <==> credentials != ApiToken
    ensures r.Rejected? ==> r.error.status == UnauthorizedStatus
    ensures r.Answered? ==>
              && (r.envelope.code == 404 <==> NotAFile(fs, AbsolutePath(base, id)))
              && (r.envelope.code == 200 ==> r.envelope.data.ContentData? && r.envelope.data.content.Some?)
              && (r.envelope.code == 500 ==> r.envelope.data == EmptyObject)
  {
    Guarded(credentials, ContentBody(fs, base, id))
  }

  /** `GET /v1/file/read?id=...`, behind the token gate. */
  function FileRead(fs: FileSystem, base: string, credentials: string, id: string): (r: Response)
    ensures r.Rejected? <==> credentials != ApiToken
    ensures r.Rejected? ==> r.error.status == UnauthorizedStatus
    ensures r.Answered? ==>
              && (r.envelope.code == 404 <==> NotAFile(fs, AbsolutePath(base, id)))
              && (r.envelope.code != 404 ==> r.envelope.code == 200 && r.envelope.data == UrlData(PreviewBase + id))
  {
    Guarded(credentials, ReadBody(fs, base, id))
  }

  /** A wrong credential is refused with 401 by every endpoint, whatever
      the request, and before the filesystem is looked at: the response is
      the same for any two filesystems. */
  lemma WrongTokenRejected(fs1: FileSystem, fs2: FileSystem, base: string, credentials: string,
                           request: ListRequest, id: string)
    requires credentials != ApiToken
    ensures FileList(fs1, base, credentials, request).Rejected?
    ensures FileList(fs1, base, credentials, request).error.status == 401
    ensures FileContent(fs1, base, credentials, id).Rejected?
    ensures FileContent(fs1, base, credentials, id).error.status == 401
    ensures FileRead(fs1, base, credentials, id).Rejected?
    ensures FileRead(fs1, base, credentials, id).error.status == 401
    ensures FileList(fs1, base, credentials, request) == FileList(fs2, base, credentials, request)
    ensures FileContent(fs1, base, credentials, id) == FileContent(fs2, base, credentials, id)
    ensures FileRead(fs1, base, credentials, id) == FileRead(fs2, base, credentials, id)
  {
  }

  /** A truthy `parentId` that does not name a directory gives 404 with an
      empty list; otherwise the answer is 200 with the listing of the
      resolved directory, or of the base directory when `parentId` is
      absent or empty, and the raw `parentId` becomes every item's
      `parentId`. */
  lemma ListDecision(fs: FileSystem, base: string, request: ListRequest)
    ensures var e := ListBody(fs, base, request);
            HasParent(request) && !IsDir(fs, AbsolutePath(base, request.parentId.value)) <==> e.code == 404
    ensures var e := ListBody(fs, base, request);
            e.code == 404 ==> !e.success && e.data == Items([])
    ensures !HasParent(request) ==>
              ListBody(fs, base, request) == Ok(Items(ListingOf(fs, base, base, request.parentId, SearchKeyOf(request))))
    ensures HasParent(request) && IsDir(fs, AbsolutePath(base, request.parentId.value)) ==>
              ListBody(fs, base, request)
              == Ok(Items(ListingOf(fs, base, AbsolutePath(base, request.parentId.value), request.parentId, SearchKeyOf(request))))
  {
  }

  /** Listing a folder by its relative identifier, with no search key,
      when it can be enumerated and every child that is not hidden
      resolves: the answer is 200 and names
      exactly the children that are not hidden, each with that identifier
      as `parentId` and the identifier joined with its name as its own
      identifier. */
  lemma ListFolderByIdentifier(fs: FileSystem, base: string, parent: string)
    requires WellFormed(fs) && IsBase(base) && parent != "" && !IsAbsolute(parent)
    requires ListDir(fs, AbsolutePath(base, parent)).Some?
    requires forall n :: n in ListDir(fs, AbsolutePath(base, parent)).value && !IsHidden(n) ==>
               Exists(fs, Join(AbsolutePath(base, parent), n))
    ensures var e := ListBody(fs, base, ListRequest(Some(parent), None));
            && e.code == 200
            && (forall n :: n in NamesOf(e.data.items) <==>
                  n in ListDir(fs, AbsolutePath(base, parent)).value && !IsHidden(n))
            && (forall d :: d in e.data.items ==> d.parentId == Some(parent) && d.id == Join(parent, d.name))
  {
    var directory := AbsolutePath(base, parent);
    ListingIsComplete(fs, base, directory, Some(parent), "");
    ListingSharesParent(fs, base, directory, Some(parent), "");
    ListingDescribesChildren(fs, base, directory, Some(parent), "");
    EnumeratedNames(fs, directory);
    forall d | d in ListingOf(fs, base, directory, Some(parent), "")
      ensures d.id == Join(parent, d.name)
    {
      ChildIdentifier(base, parent, d.name);
    }
  }

  /** Both file endpoints answer 404 on exactly the same identifiers:
      those whose path is missing or is a directory. */
  lemma FileEndpointsAgreeOnNotFound(fs: FileSystem, base: string, id: string)
    ensures ContentBody(fs, base, id).code == 404 <==> NotAFile(fs, AbsolutePath(base, id))
    ensures ReadBody(fs, base, id).code == 404 <==> NotAFile(fs, AbsolutePath(base, id))
    ensures NotAFile(fs, AbsolutePath(base, id)) ==>
              ContentBody(fs, base, id) == ReadBody(fs, base, id)
  {
  }

  /** Reading an existing file returns its stored text unchanged; a read
      that fails gives 500 with a message that ends with the reason. */
  lemma ContentOfFile(fs: FileSystem, base: string, id: string)
    requires !NotAFile(fs, AbsolutePath(base, id))
    ensures var e := ContentBody(fs, base, id);
            match ReadText(fs, AbsolutePath(base, id))
            case Text(text) => e.code == 200 && e.data == ContentData(Some(text), None)
            case ReadError(reason) =>
              && e.code == 500 && !e.success && e.data == EmptyObject
              && e.message[..|ReadFailedPrefix|] == ReadFailedPrefix
              && e.message[|ReadFailedPrefix|..] == reason
  {
  }

  /** The link `file_read` hands out is the fixed preview prefix followed
      by the identifier itself, so the identifier can be recovered from
      it. */
  lemma ReadLinkEmbedsIdentifier(fs: FileSystem, base: string, id: string)
    requires !NotAFile(fs, AbsolutePath(base, id))
    ensures var e := ReadBody(fs, base, id);
            && e.code == 200 && e.data.UrlData?
            && e.data.url[..|PreviewBase|] == PreviewBase
            && e.data.url[|PreviewBase|..] == id
  {
  }
}
