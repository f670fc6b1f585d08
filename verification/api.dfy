/** The backend's answers as the controller sees them once the transport is
    abstracted away: a response either never arrived (`onerror`), or arrived
    with an HTTP status and a body that `JSON.parse` either read or rejected.
    Every field the controller tests for truthiness is a string whose empty
    value stands for an absent or falsy field. */
module Api {
  import opened Wrappers

  /** One item of a search result list. */
  datatype FileEntry = FileEntry(
    name: string,
    url: string,
    size: string,
    date: string,
    downloads: string,
    icon: string)

  /** The `data` object of a resolution response. */
  datatype DownloadInfo = DownloadInfo(
    name: string,
    size: string,
    mimeType: string,
    uploaded: string,
    downloads: string,
    downloadUrl: string)

  /** The body of `api/search`; `data` is `None` when the field is absent or null. */
  datatype SearchPayload = SearchPayload(
    success: bool,
    data: Option<seq<FileEntry>>,
    totalResults: int,
    currentPage: int,
    pageCount: int)

  /** The body of `api/download`. */
  datatype ResolvePayload = ResolvePayload(
    success: bool,
    data: Option<DownloadInfo>,
    cookies: string,
    message: string)

  datatype Body<P> = Json(payload: P) | Malformed

  datatype Response<P> = Loaded(status: int, body: Body<P>) | NetworkError

  type SearchResponse = Response<SearchPayload>
  type ResolveResponse = Response<ResolvePayload>

  /** `xhr.status >= 200 && xhr.status < 300` */
  predicate IsSuccessStatus(status: int) {
    200 <= status < 300
  }
}
