/** The view controller's session state and the handler of each user event
    and each backend answer, each a pure function from the state before to
    the state after plus the one effect the handler has on the outside world
    (a request issued, an error shown on one of the two surfaces, a view
    rendered or reset). */
module Controller {
  import opened Wrappers
  import opened JsString
  import opened Api
  import opened Render
  import DownloadUrl

  const FileSearchTab: string := "file-search"
  const FileDownloadTab: string := "file-download"

  /** The result set kept for "Back to Results". */
  datatype StoredResults = StoredResults(
    data: seq<FileEntry>,
    query: string,
    totalResults: int,
    currentPage: int,
    pageCount: int)

  /** The eight module-level variables of the page. */
  datatype State = State(
    currentTab: string,
    currentPage: int,
    currentQuery: string,
    currentSource: string,
    totalPages: int,
    currentCookies: string,
    searchResultsState: Option<StoredResults>,
    scrollPosition: int)

  /** The values the variables are declared with. */
  const Initial: State := State(FileSearchTab, 1, "", "sfile", 1, "", None, 0)

  /** The two error boxes: `error-message` on the search tab and
      `download-error-message` on the download tab. The same two names
      stand for the two containers the file details are shown in. */
  datatype Surface = SearchSurface | DownloadSurface

  /** Where a resolution's outcome is shown: on the search tab while that tab
      is the current one, on the download tab otherwise. */
  function SurfaceFor(tab: string): (v: Surface)
    ensures v == SearchSurface <==> tab == FileSearchTab
  {
    if tab == FileSearchTab then SearchSurface else DownloadSurface
  }

  datatype Effect =
    | Nothing
    | ShowError(surface: Surface, message: string)
    | IssueSearch(query: string, page: int, source: string)
    | IssueResolve(url: string)
    | RenderResults(results: StoredResults, pagination: PaginationView)
    | RenderDownload(container: Surface, rows: seq<SpecRow>, action: DownloadAction, backButton: bool)
    | RestoreResults(results: StoredResults, scrollTop: int)
    | ResetSearchView
    | ResetDownloadView

  datatype Transition = Transition(state: State, effect: Effect)

  const EmptyQueryMessage: string := "Please enter a search query!"
  const EmptyUrlMessage: string := "Please enter a Sfile or Simfile URL!"
  const InvalidUrlMessage: string := "Invalid URL! Please enter a valid Sfile.co or Simfile.co URL."
  const ParseFailedMessage: string := "Failed to parse response data!"
  const SearchFailedMessage: string := "Failed to search. Please try again."
  const ResolveFailedMessage: string := "Failed to get download link. Please try again."
  const NetworkMessage: string := "Network error occurred. Please check your connection."

  function NoFilesMessage(query: string): string {
    "No files found matching \"" + query + "\""
  }

  /** The ways a search can end without results. */
  datatype SearchFailure = NoFiles | BadStatus | BadBody | NoConnection

  function SearchErrorMessage(f: SearchFailure, query: string): string {
    match f
    case NoFiles => NoFilesMessage(query)
    case BadStatus => SearchFailedMessage
    case BadBody => ParseFailedMessage
    case NoConnection => NetworkMessage
  }

  /** Each way a search can fail shows its own message, whatever the query:
      the last character tells a no-files message ('"') and an unreadable
      body ('!') from the other two, which differ in the third-last. */
  lemma SearchErrorMessagesDistinct(f: SearchFailure, g: SearchFailure, q: string, q': string)
    requires f != g
    ensures SearchErrorMessage(f, q) != SearchErrorMessage(g, q')
  {
    var m, m' := SearchErrorMessage(f, q), SearchErrorMessage(g, q');
    assert |m| > 3 && |m'| > 3;
    assert m[|m| - 1] != m'[|m'| - 1] || m[|m| - 3] != m'[|m'| - 3];
  }

  /** `handleSearch`: the checked provider radio (if any) is recorded first;
      then a query that trims to nothing is refused with an error, and any
      other becomes the current query, resets the page to 1 and is searched
      for on the recorded provider. */
  function HandleSearch(s: State, input: string, checkedSource: Option<string>): (r: Transition)
    ensures r.state.currentSource == checkedSource.GetOr(s.currentSource)
    ensures AllWhitespace(input) ==>
      && r.state == s.(currentSource := r.state.currentSource)
      && r.effect == ShowError(SearchSurface, EmptyQueryMessage)
    ensures !AllWhitespace(input) ==>
      && r.state == s.(currentSource := r.state.currentSource, currentQuery := Trim(input), currentPage := 1)
      && r.effect == IssueSearch(Trim(input), 1, r.state.currentSource)
    ensures r.effect.IssueSearch? ==> r.effect.query != [] && NoEdgeWhitespace(r.effect.query)
  {
    var query := Trim(input);
    TrimEmptyIff(input);
    var s := s.(currentSource := checkedSource.GetOr(s.currentSource));
    if query != [] then
      var s := s.(currentQuery := query, currentPage := 1);
      Transition(s, IssueSearch(query, s.currentPage, s.currentSource))
    else
      Transition(s, ShowError(SearchSurface, EmptyQueryMessage))
  }

  /** `handleDownload`: the trimmed input is sent for resolution exactly when
      it is an `sfile.co` or `simfile.co` file URL; an input that trims to
      nothing and any other input get two different errors. No variable
      changes. */
  function HandleDownload(s: State, input: string): (r: Transition)
    ensures r.state == s
    ensures r.effect.IssueResolve? <==> DownloadUrl.InPatternLanguage(Trim(input))
    ensures r.effect.IssueResolve? ==> r.effect.url == Trim(input)
    ensures AllWhitespace(input) ==> r.effect == ShowError(DownloadSurface, EmptyUrlMessage)
    ensures !AllWhitespace(input) && !DownloadUrl.InPatternLanguage(Trim(input)) ==>
      r.effect == ShowError(DownloadSurface, InvalidUrlMessage)
  {
    var url := Trim(input);
    TrimEmptyIff(input);
    assert DownloadUrl.IsAcceptedUrl(url) ==> url != [];
    if url != [] then
      if !DownloadUrl.IsAcceptedUrl(url) then Transition(s, ShowError(DownloadSurface, InvalidUrlMessage))
      else Transition(s, IssueResolve(url))
    else
      Transition(s, ShowError(DownloadSurface, EmptyUrlMessage))
  }

  /** The previous-page button: only above page 1 does it step back one page
      and search again for the same query on the same provider. */
  function PrevPage(s: State): (r: Transition)
    ensures r.effect.IssueSearch? <==> s.currentPage > 1
    ensures r.effect.IssueSearch? ==>
      && r.state == s.(currentPage := s.currentPage - 1)
      && r.effect == IssueSearch(s.currentQuery, s.currentPage - 1, s.currentSource)
    ensures !r.effect.IssueSearch? ==> r == Transition(s, Nothing)
    ensures 1 <= s.currentPage <= s.totalPages ==> 1 <= r.state.currentPage <= r.state.totalPages
  {
    if s.currentPage > 1 then
      var s := s.(currentPage := s.currentPage - 1);
      Transition(s, IssueSearch(s.currentQuery, s.currentPage, s.currentSource))
    else
      Transition(s, Nothing)
  }

  /** The next-page button: only below the last page does it step forward
      one page and search again for the same query on the same provider. */
  function NextPage(s: State): (r: Transition)
    ensures r.effect.IssueSearch? <==> s.currentPage < s.totalPages
    ensures r.effect.IssueSearch? ==>
      && r.state == s.(currentPage := s.currentPage + 1)
      && r.effect == IssueSearch(s.currentQuery, s.currentPage + 1, s.currentSource)
    ensures !r.effect.IssueSearch? ==> r == Transition(s, Nothing)
    ensures 1 <= s.currentPage <= s.totalPages ==> 1 <= r.state.currentPage <= r.state.totalPages
  {
    if s.currentPage < s.totalPages then
      var s := s.(currentPage := s.currentPage + 1);
      Transition(s, IssueSearch(s.currentQuery, s.currentPage, s.currentSource))
    else
      Transition(s, Nothing)
  }

  /** A search response that lists at least one file. */
  predicate HasResults(resp: SearchResponse) {
    && resp.Loaded? && IsSuccessStatus(resp.status) && resp.body.Json?
    && var p := resp.body.payload;
       p.success && p.data.Some? && |p.data.value| > 0
  }

  /** The `onload`/`onerror` handlers of `searchFiles` for a request made for
      `query`: a listing with files is stored (with its page count) and
      drawn; every other answer leaves the variables alone and shows on the
      search tab the message of its own kind of failure. */
  function OnSearchResponse(s: State, query: string, resp: SearchResponse): (r: Transition)
    ensures HasResults(resp) ==>
      var p := resp.body.payload;
      var stored := StoredResults(p.data.value, query, p.totalResults, p.currentPage, p.pageCount);
      && r.state == s.(totalPages := p.pageCount, searchResultsState := Some(stored))
      && r.effect == RenderResults(stored, Pagination(p.currentPage, p.pageCount))
    ensures !HasResults(resp) ==> r.state == s && r.effect.ShowError? && r.effect.surface == SearchSurface
    ensures resp.NetworkError? ==> r.effect.message == SearchErrorMessage(NoConnection, query)
    ensures resp.Loaded? && !IsSuccessStatus(resp.status) ==> r.effect.message == SearchErrorMessage(BadStatus, query)
    ensures resp.Loaded? && IsSuccessStatus(resp.status) && resp.body.Malformed? ==>
      r.effect.message == SearchErrorMessage(BadBody, query)
    ensures resp.Loaded? && IsSuccessStatus(resp.status) && resp.body.Json? && !HasResults(resp) ==>
      r.effect.message == SearchErrorMessage(NoFiles, query)
  {
    match resp
    case NetworkError => Transition(s, ShowError(SearchSurface, NetworkMessage))
    case Loaded(status, body) =>
      if !IsSuccessStatus(status) then Transition(s, ShowError(SearchSurface, SearchFailedMessage))
      else match body
        case Malformed => Transition(s, ShowError(SearchSurface, ParseFailedMessage))
        case Json(p) =>
          if p.success && p.data.Some? && |p.data.value| > 0 then
            var stored := StoredResults(p.data.value, query, p.totalResults, p.currentPage, p.pageCount);
            var s := s.(totalPages := p.pageCount, searchResultsState := Some(stored));
            Transition(s, RenderResults(stored, Pagination(p.currentPage, p.pageCount)))
          else
            Transition(s, ShowError(SearchSurface, NoFilesMessage(query)))
  }

  /** When the answer reports the page the client asked for, and that page
      is within the answer's page count, the pagination bar drawn with the
      results disables a button exactly when clicking it would do nothing. */
  lemma PaginationMatchesClicks(s: State, query: string, resp: SearchResponse)
    requires HasResults(resp)
    requires resp.body.payload.currentPage == s.currentPage
    requires 1 <= s.currentPage <= resp.body.payload.pageCount
    ensures var r := OnSearchResponse(s, query, resp);
            && r.effect.RenderResults?
            && (r.effect.pagination.prevDisabled <==> PrevPage(r.state).effect == Nothing)
            && (r.effect.pagination.nextDisabled <==> NextPage(r.state).effect == Nothing)
  {
  }

  /** The bar is drawn from the page the answer reports, while the buttons
      act on the client's page: a first search whose answer claims page 2 of
      3 draws an enabled previous button that does nothing when clicked. */
  lemma PaginationFollowsAnswer()
    ensures var s := HandleSearch(Initial, "abc", None).state;
            var r := OnSearchResponse(s, "abc", AnswerForPage2Of3());
            && r.effect.RenderResults?
            && !r.effect.pagination.prevDisabled
            && PrevPage(r.state).effect == Nothing
  {
    assert !AllWhitespace("abc") by { assert !IsJsWhitespace("abc"[0]); }
    var s := HandleSearch(Initial, "abc", None).state;
    assert s.currentPage == 1;
    var resp := AnswerForPage2Of3();
    assert HasResults(resp);
    var r := OnSearchResponse(s, "abc", resp);
    assert r.state.currentPage == 1;
    assert r.effect.pagination == Pagination(2, 3);
  }

  /** A successful answer listing one file, reporting page 2 of 3. */
  function AnswerForPage2Of3(): SearchResponse {
    Loaded(200, Json(SearchPayload(true, Some([FileEntry("a", "u", "1 KB", "", "", "")]), 30, 2, 3)))
  }

  /** A resolution response that carries file details. */
  predicate HasDownload(resp: ResolveResponse) {
    && resp.Loaded? && IsSuccessStatus(resp.status) && resp.body.Json?
    && resp.body.payload.success && resp.body.payload.data.Some?
  }

  /** The `onload`/`onerror` handlers of `getDownloadLink` for `url`: file
      details are drawn in the current tab's container, after cookies
      carried by the answer (and only those) replace the stored ones; every
      failure changes nothing and goes to the search tab's error box exactly
      when the search tab is the current one. */
  function OnResolveResponse(s: State, url: string, resp: ResolveResponse): (r: Transition)
    ensures HasDownload(resp) ==>
      var p := resp.body.payload;
      var cookies := if p.cookies != "" then p.cookies else s.currentCookies;
      && r.state == s.(currentCookies := cookies)
      && r.effect == RenderDownload(
           SurfaceFor(s.currentTab),
           SpecRows(p.data.value, url),
           ChooseDownloadAction(cookies, url, p.data.value),
           s.currentTab == FileSearchTab && s.searchResultsState.Some?)
    ensures !HasDownload(resp) ==>
      && r.state == s
      && r.effect.ShowError?
      && (r.effect.surface == SearchSurface <==> s.currentTab == FileSearchTab)
    ensures resp.NetworkError? ==> r.effect.message == NetworkMessage
    ensures resp.Loaded? && !IsSuccessStatus(resp.status) ==> r.effect.message == ResolveFailedMessage
    ensures resp.Loaded? && IsSuccessStatus(resp.status) && resp.body.Malformed? ==>
      r.effect.message == ParseFailedMessage
    ensures resp.Loaded? && IsSuccessStatus(resp.status) && resp.body.Json? && !HasDownload(resp) ==>
      r.effect.message == resp.body.payload.message
  {
    var surface := SurfaceFor(s.currentTab);
    match resp
    case NetworkError => Transition(s, ShowError(surface, NetworkMessage))
    case Loaded(status, body) =>
      if !IsSuccessStatus(status) then Transition(s, ShowError(surface, ResolveFailedMessage))
      else match body
        case Malformed => Transition(s, ShowError(surface, ParseFailedMessage))
        case Json(p) =>
          if p.success && p.data.Some? then
            var s' := if p.cookies != "" then s.(currentCookies := p.cookies) else s;
            var info := p.data.value;
            Transition(s', RenderDownload(
              surface,
              SpecRows(info, url),
              ChooseDownloadAction(s'.currentCookies, url, info),
              s'.currentTab == FileSearchTab && s'.searchResultsState.Some?))
          else
            Transition(s, ShowError(surface, p.message))
  }

  /** A click on a search result: unless that result is already loading, the
      scroll offset is remembered and the result's normalised link is sent
      for resolution. */
  function ClickResult(s: State, entryUrl: string, alreadyLoading: bool, scrollY: int): (r: Transition)
    ensures alreadyLoading ==> r == Transition(s, Nothing)
    ensures !alreadyLoading ==>
      && r.state == s.(scrollPosition := scrollY)
      && r.effect == IssueResolve(NormalizeResultUrl(entryUrl))
  {
    if alreadyLoading then Transition(s, Nothing)
    else Transition(s.(scrollPosition := scrollY), IssueResolve(NormalizeResultUrl(entryUrl)))
  }

  /** `clearAll`: the search form goes back to its initial values; the page
      count, the provider and the tab are kept. */
  function ClearAll(s: State): (r: Transition)
    ensures r.state.currentQuery == "" && r.state.currentPage == 1 && r.state.currentCookies == ""
    ensures r.state.searchResultsState == None && r.state.scrollPosition == 0
    ensures r.state.totalPages == s.totalPages && r.state.currentSource == s.currentSource
    ensures r.state.currentTab == s.currentTab
    ensures r.effect == ResetSearchView
  {
    Transition(
      s.(currentQuery := "", currentPage := 1, currentCookies := "", searchResultsState := None, scrollPosition := 0),
      ResetSearchView)
  }

  /** `clearDownloadInput`: only the stored cookies are forgotten. */
  function ClearDownloadInput(s: State): (r: Transition)
    ensures r.state.currentCookies == ""
    ensures r.state.(currentCookies := s.currentCookies) == s
    ensures r.effect == ResetDownloadView
  {
    Transition(s.(currentCookies := ""), ResetDownloadView)
  }

  /** `switchTab`: the tab name is recorded whatever it is, and then the
      search tab is reset as by `clearAll` and the download tab as by
      `clearDownloadInput`; an unknown name resets nothing. */
  function SwitchTab(s: State, name: string): (r: Transition)
    ensures r.state.currentTab == name
    ensures name == FileSearchTab ==> r == ClearAll(s.(currentTab := name))
    ensures name == FileDownloadTab ==> r == ClearDownloadInput(s.(currentTab := name))
    ensures name != FileSearchTab && name != FileDownloadTab ==> r == Transition(s.(currentTab := name), Nothing)
    ensures name == FileSearchTab || name == FileDownloadTab ==> r.state.currentCookies == ""
  {
    var s := s.(currentTab := name);
    if name == FileSearchTab then ClearAll(s)
    else if name == FileDownloadTab then ClearDownloadInput(s)
    else Transition(s, Nothing)
  }

  /** `backToResults`: with a stored result set the results come back at the
      remembered scroll offset, with no new request; without one nothing
      happens. No variable changes. */
  function BackToResults(s: State): (r: Transition)
    ensures r.state == s
    ensures s.searchResultsState.None? ==> r.effect == Nothing
    ensures s.searchResultsState.Some? ==>
      r.effect == RestoreResults(s.searchResultsState.value, s.scrollPosition)
  {
    match s.searchResultsState
    case None => Transition(s, Nothing)
    case Some(stored) => Transition(s, RestoreResults(stored, s.scrollPosition))
  }
}
