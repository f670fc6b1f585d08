# SfileTools view controller, modelled in Dafny

SfileTools is a browser page that searches the `sfile.co` / `simfile.co`
file index through a remote API and resolves direct download links. All of
its logic lives in one view controller, `public/js/script.js`: eight
module-level variables (`currentTab`, `currentPage`, `currentQuery`,
`currentSource`, `totalPages`, `currentCookies`, `searchResultsState`,
`scrollPosition`) and event handlers that read and write them, issue
requests and draw views.

This project models that controller as pure functions. Each handler takes
the state record and its inputs (the text typed, the radio checked, the
backend's answer) and returns the new state plus one abstract effect: a
search or resolution request issued, an error shown on the search or the
download error box, a view rendered or reset, or nothing.

| file | module | contents |
|---|---|---|
| `wrappers.dfy` | `Wrappers` | `Option` |
| `js_string.dfy` | `JsString` | `trim`, `includes`, `startsWith` as ECMAScript defines them |
| `decimal.dfy` | `Decimal` | how an integer is written into a string, and its inverse |
| `api.dfy` | `Api` | response payloads and the abstract transport outcome |
| `download_url.dfy` | `DownloadUrl` | the two URL regular expressions of `handleDownload` |
| `render.dfy` | `Render` | pagination bar, result-link normalisation, spec list, download action |
| `controller.dfy` | `Controller` | the state record and every handler |
| `session.dfy` | `Session` | all handlers as one state machine over event sequences |

## Notes on the code

- The download action (lines 390-412). A proxy link is built iff cookies
  are held and the source URL contains `simfile.co`. Otherwise a button that
  navigates the page is built iff the source URL contains `sfile.co`.
  Otherwise the link opens in a new tab. `simfile.co` does not contain
  `sfile.co`. So a `simfile.co` file without cookies gets the new-tab link,
  and an `sfile.co` file always gets the button (`Render.ActionForAcceptedUrl`).
- A search answer with `success: false` shows "No files found matching …"
  (line 123). Only resolution failures show the backend's `message`.
- `switchTab` resets the tab being entered (lines 464-468): `clearAll` on
  entering the search tab, `clearDownloadInput` on entering the download
  tab. It records any tab name, and resets nothing for an unknown one.
- `handleSearch` records the checked provider before it looks at the query
  (lines 17-21). So an empty query still changes `currentSource`.
- "Back to results" (lines 309-323) re-shows the list already in the page.
  It does not redraw from the stored result set. The model's effect names
  the stored set, which is the one drawn when it was stored.
- The pagination bar is drawn from the page number the answer reports
  (line 121). The buttons act on the client's own `currentPage` (lines
  491-503). The two agree when the answer reports the requested page
  (`Controller.PaginationMatchesClicks`). When they differ, a drawn button
  may do nothing (`Controller.PaginationFollowsAnswer`).
- A result link that mentions `sfile.co` without starting with
  `http(s)://sfile.co` gets `https://sfile.co` glued in front of it whole
  (lines 158-160). For example, `https://www.sfile.co/x` becomes
  `https://sfile.cohttps://www.sfile.co/x` (`Render.NormalizeKeepsForeignOrigin`).

Backend answers are events like user clicks (`Session.Event`), so a session
may deliver them late or for overtaken requests. The facts proved about
sessions hold for every such order.

## Model

| member | source | states |
|---|---|---|
| JsString.Trim | public/js/script.js:34 | the result has no whitespace at either end and sits in the input with only whitespace before and after it |
| JsString.TrimStart | public/js/script.js:14 | the result is a suffix of the input, everything cut is whitespace, and it does not start with whitespace |
| JsString.TrimEnd | public/js/script.js:14 | the result is a prefix of the input, everything cut is whitespace, and it does not end with whitespace |
| JsString.TrimUnique | public/js/script.js:34 | any whitespace-free-edged core surrounded only by whitespace is the trimmed string, so trimming is fully characterised |
| JsString.TrimEmptyIff | public/js/script.js:23 | a string trims to the empty (falsy) string exactly when it is all whitespace |
| JsString.TrimIdempotent | public/js/script.js:14 | trimming a trimmed string changes nothing |
| JsString.Includes | public/js/script.js:390 | `includes` holds exactly when the pattern occurs at some index |
| DownloadUrl.MatchesPattern | public/js/script.js:37-38 | one host's expression accepts a URL exactly when it is `https://` and that host, `/`, one or more ASCII letters or digits, and at most one `/` |
| DownloadUrl.IsAcceptedUrl | public/js/script.js:37-40 | the URL passes the check exactly when it belongs to the language of one of the two expressions |
| DownloadUrl.LeftToRight | public/js/script.js:37-38 | reading the literal origin and then the id with one optional trailing `/` accepts exactly that language |
| DownloadUrl.PatternComplete | public/js/script.js:37-38 | reading a URL of that shape finds the host's origin and recovers exactly its file id |
| DownloadUrl.PatternSound | public/js/script.js:37-38 | every URL the reading accepts has that shape |
| DownloadUrl.HostRecognisable | public/js/script.js:390-397 | an accepted URL contains `sfile.co` exactly when its host is `sfile.co`, and `simfile.co` exactly when its host is `simfile.co` |
| Decimal.NatToString | public/js/script.js:231 | a number is written as digits only, with no leading zero |
| Decimal.DigitsValueOfNatToString | public/js/script.js:231 | reading back the digits written for a number gives that number |
| Decimal.IntToString | public/js/script.js:231 | an integer is written as digits with no leading zero, preceded by `-` exactly when it is negative, and never as `-0` |
| Decimal.IntToStringRoundTrip | public/js/script.js:231 | reading back the text written for any integer gives that integer |
| Decimal.NatToStringOfDigits | public/js/script.js:231 | a run of digits without a leading zero is exactly how its own value is written |
| Decimal.ParseIntOnlyCanonical | public/js/script.js:231 | whatever text reads as an integer is the one way that integer is written, so writing and reading are inverse both ways |
| Render.Pagination | public/js/script.js:225-237 | the label is the one text that reads back as "Page c of t" with the canonical spelling of both numbers; previous is disabled iff c is 1 and next iff c equals t |
| Render.PageLabelRoundTrip | public/js/script.js:231 | the page label determines both numbers |
| Render.PageLabelOnlySpelling | public/js/script.js:231 | no other text (a leading zero, `-0`, other spacing) reads back as the same two numbers |
| Render.StripSfileOrigin | public/js/script.js:159 | a leading `https://sfile.co` or `http://sfile.co` is removed and nothing else is |
| Render.NormalizeResultUrl | public/js/script.js:157-163 | a link mentioning `sfile.co` ends up starting with `https://sfile.co`: an `http` origin is upgraded, an `https` one kept, and any other link mentioning it is prefixed whole; links not mentioning it pass unchanged |
| Render.NormalizeKeepsForeignOrigin | public/js/script.js:158-160 | `https://www.sfile.co/x` is turned into `https://sfile.cohttps://www.sfile.co/x` |
| Render.ChooseDownloadAction | public/js/script.js:390-412 | proxy link iff cookies are held and the source contains `simfile.co`; else navigating button iff it contains `sfile.co`; else new-tab link; all target the resolved URL |
| Render.ActionForAcceptedUrl | public/js/script.js:390-412 | for an accepted URL: `sfile.co` always navigates, `simfile.co` proxies with cookies and opens a new tab without |
| Render.NonEmptyRows | public/js/script.js:361-374 | exactly the rows with a non-empty value are kept |
| Render.NonEmptyRowsAppend | public/js/script.js:361-374 | keeping the non-empty rows of a concatenation keeps those of each part, in order, so the filter never reorders |
| Render.CandidateRowsInOrder | public/js/script.js:353-374 | the shown fields appear in the order name, size, type, upload date, downloads, each iff its value is non-empty |
| Render.SpecRows | public/js/script.js:353-388 | the list holds exactly the present fields in the order name, size, type, upload date, downloads, followed by the source URL row |
| Controller.SurfaceFor | public/js/script.js:274-278 | outcomes go to the search tab's box iff the current tab is `file-search` |
| Controller.SearchErrorMessagesDistinct | public/js/script.js:122-135 | no files, bad status, unreadable body and network failure show four different messages, whatever the query |
| Controller.HandleSearch | public/js/script.js:12-30 | the checked source is recorded; a whitespace-only query issues nothing, shows the empty-query error and keeps query and page; any other sets the trimmed query, page 1 and issues one search for (query, 1, source) |
| Controller.HandleDownload | public/js/script.js:32-48 | a resolution of the trimmed URL is requested iff it is an accepted file URL; empty input and any other input get their own errors on the download box; no variable changes |
| Controller.PrevPage | public/js/script.js:491-496 | page goes down by exactly 1 and the same query and source are searched iff the page is above 1; otherwise nothing; 1 ≤ page ≤ total is kept |
| Controller.NextPage | public/js/script.js:498-503 | page goes up by exactly 1 and the same query and source are searched iff the page is below the total; otherwise nothing; 1 ≤ page ≤ total is kept |
| Controller.PaginationMatchesClicks | public/js/script.js:111-121 | when a listing answer reports the page the client asked for, within its page count, the bar drawn with it disables a button exactly when clicking it in the resulting state would do nothing |
| Controller.PaginationFollowsAnswer | public/js/script.js:121 | a first search answered with "page 2 of 3" draws an enabled previous button whose click does nothing |
| Controller.OnSearchResponse | public/js/script.js:104-136 | only a successful 2xx answer listing files updates the page count and stored results and draws them; every other answer keeps the state and shows its own message on the search box |
| Controller.OnResolveResponse | public/js/script.js:260-304 | on success the cookies are replaced only by non-empty answer cookies and the details drawn; every failure keeps the state and goes to the search box iff the tab is `file-search` |
| Controller.ClickResult | public/js/script.js:199-216 | unless already loading, the scroll offset is stored and the normalised link is sent for resolution |
| Controller.ClearAll | public/js/script.js:50-70 | query, page, cookies, stored results and scroll return to initial values; page count, source and tab are kept |
| Controller.ClearDownloadInput | public/js/script.js:72-84 | only the cookies change, to empty |
| Controller.SwitchTab | public/js/script.js:444-469 | the tab is recorded, then `clearAll` applies for `file-search`, `clearDownloadInput` for `file-download`, nothing for other names |
| Controller.BackToResults | public/js/script.js:309-323 | nothing happens without stored results; with them the stored results return at the stored scroll offset; no variable changes |
| Session.Step | public/js/script.js:486-510 | only a tab click moves the tab, only a search answer the page count, only a resolution answer stores non-empty cookies, only a submission a query or source; consistency is kept and no page below 1 is requested |
| Session.Run | public/js/script.js:3-10 | a consistent state stays consistent over any sequence of events, and without tab clicks the tab stays |
| Session.Effects | public/js/script.js:486-503 | one effect per event, and from a consistent state no search asks for a page below 1 |

## Left out

- DOM work: element lookup, `innerHTML` templates, CSS classes, loader text,
  the results header, file icons, `scrollTo`, `setTimeout`, focus, the
  clear buttons' visibility (lines 522-536), the footer year and the
  hamburger menu. Only which view is drawn or reset is modelled, as an effect.
- `XMLHttpRequest` and `JSON.parse`: a response is `Loaded(status, body)` or
  `NetworkError`, and a body is parsed JSON or malformed.
- `encodeURIComponent`: the proxy link is modelled by its parts (target,
  cookies, file name), not as a URL string.
- `copyToClipboard` (lines 325-338): it calls the asynchronous clipboard API.
- Ordering of overlapping requests: the code gives none, so answers are
  free events in any order.
- Truthiness is modelled for strings ("" is falsy) and `success` is a boolean;
  a numeric `0` in `downloads`, a non-numeric `pageCount` and a missing
  `message` are not modelled. Page numbers and the scroll offset are
  integers.
- Exceptions thrown while drawing inside the `try` blocks (for example a
  missing `totalResults`) are not modelled: they would show the parse
  message after the variables were already updated.
- Decimal.IntToString: numbers are integers; the exponent notation
  JavaScript uses from 10^21 on is not modelled.
- The Enter key handlers (lines 538-549) raise the same events as the
  buttons, so they add nothing to the model.
