/** The controller as one state machine: every DOM event and every backend
    answer is an event, and a session is the state reached from the initial
    variables by a sequence of them. Answers are events like any other, so a
    sequence may deliver them late, twice or for requests that were
    overtaken; the facts below hold for every such order. */
module Session {
  import opened Wrappers
  import opened Api
  import opened Controller

  datatype Event =
    | SubmitSearch(input: string, checkedSource: Option<string>)
    | SubmitDownload(input: string)
    | PrevClicked
    | NextClicked
    | SearchAnswered(query: string, searchResponse: SearchResponse)
    | ResolveAnswered(url: string, resolveResponse: ResolveResponse)
    | ResultClicked(entryUrl: string, alreadyLoading: bool, scrollY: int)
    | ClearSearchClicked
    | ClearDownloadClicked
    | TabClicked(name: string)
    | BackClicked

  /** The variables agree with each other: the page is at least 1, and a
      stored result set is non-empty and its page count is the one the
      next-page button is guarded by. */
  predicate Consistent(s: State) {
    && s.currentPage >= 1
    && (s.searchResultsState.Some? ==>
          && |s.searchResultsState.value.data| > 0
          && s.totalPages == s.searchResultsState.value.pageCount)
  }

  /** One event handled by the controller. Each variable has few writers:
      only a tab click moves the tab, only a search answer the page count,
      only a resolution answer stores non-empty cookies, only a search
      submission a non-empty query; and no event breaks consistency or asks
      for a page below 1. */
  function Step(s: State, e: Event): (r: Transition)
    ensures r.state.currentTab != s.currentTab ==> e.TabClicked?
    ensures r.state.totalPages != s.totalPages ==> e.SearchAnswered?
    ensures r.state.currentCookies != s.currentCookies ==> r.state.currentCookies == "" || e.ResolveAnswered?
    ensures r.state.currentQuery != s.currentQuery ==> r.state.currentQuery == "" || e.SubmitSearch?
    ensures r.state.currentSource != s.currentSource ==> e.SubmitSearch?
    ensures Consistent(s) ==> Consistent(r.state)
    ensures Consistent(s) && r.effect.IssueSearch? ==> r.effect.page >= 1
  {
    match e
    case SubmitSearch(input, checked) => HandleSearch(s, input, checked)
    case SubmitDownload(input) => HandleDownload(s, input)
    case PrevClicked => PrevPage(s)
    case NextClicked => NextPage(s)
    case SearchAnswered(query, response) => OnSearchResponse(s, query, response)
    case ResolveAnswered(url, response) => OnResolveResponse(s, url, response)
    case ResultClicked(entryUrl, loading, scrollY) => ClickResult(s, entryUrl, loading, scrollY)
    case ClearSearchClicked => ClearAll(s)
    case ClearDownloadClicked => ClearDownloadInput(s)
    case TabClicked(name) => SwitchTab(s, name)
    case BackClicked => BackToResults(s)
  }

  /** The state after handling `events` in order. */
  function Run(s: State, events: seq<Event>): (r: State)
    ensures Consistent(s) ==> Consistent(r)
    ensures (forall i :: 0 <= i < |events| ==> !events[i].TabClicked?) ==> r.currentTab == s.currentTab
    decreases |events|
  {
    if events == [] then s
    else Run(Step(s, events[0]).state, events[1..])
  }

  /** The effects produced while handling `events` in order, one per event. */
  function Effects(s: State, events: seq<Event>): (r: seq<Effect>)
    ensures |r| == |events|
    ensures Consistent(s) ==> forall i :: 0 <= i < |r| && r[i].IssueSearch? ==> r[i].page >= 1
    decreases |events|
  {
    if events == [] then []
    else
      var t := Step(s, events[0]);
      [t.effect] + Effects(t.state, events[1..])
  }

  /** Every session that starts from the declared initial values stays
      consistent, and never asks the backend for a page below 1. */
  lemma ReachableConsistent(events: seq<Event>)
    ensures Consistent(Run(Initial, events))
    ensures forall i :: 0 <= i < |events| && Effects(Initial, events)[i].IssueSearch? ==>
              Effects(Initial, events)[i].page >= 1
  {
  }
}
