/** The presentation decisions of the view controller that are more than DOM
    plumbing: the pagination bar, the links stored on search results, the
    specification list and the provider-specific download action. */
module Render {
  import opened Wrappers
  import opened JsString
  import opened Decimal
  import opened Api
  import DownloadUrl

  /** What `updatePagination` puts on screen. */
  datatype PaginationView = PaginationView(text: string, prevDisabled: bool, nextDisabled: bool)

  const PagePrefix: string := "Page "
  const PageSeparator: string := " of "

  function PageLabel(current: int, total: int): string {
    PagePrefix + IntToString(current) + PageSeparator + IntToString(total)
  }

  /** The pagination bar for page `current` of `total`: its label is the one
      text that reads back as exactly those two numbers, the previous button
      is off on the first page and the next button on the last. */
  function Pagination(current: int, total: int): (v: PaginationView)
    ensures forall text :: ParsePageLabel(text) == Some((current, total)) <==> text == v.text
    ensures v.prevDisabled <==> current == 1
    ensures v.nextDisabled <==> current == total
  {
    PageLabelRoundTrip(current, total);
    PageLabelOnlySpelling(current, total);
    PaginationView(PageLabel(current, total), current == 1, current == total)
  }

  /** The position of the first `c` in `s`, if any. */
  function FirstIndexOf(s: string, c: char): (r: Option<nat>)
    ensures r.Some? ==> r.value < |s| && s[r.value] == c
    ensures forall i :: 0 <= i < |s| && (r.None? || i < r.value) ==> s[i] != c
  {
    if s == [] then None
    else if s[0] == c then Some(0)
    else match FirstIndexOf(s[1..], c)
      case None => None
      case Some(k) => Some(k + 1)
  }

  /** Reads the two numbers back out of a pagination label. */
  function ParsePageLabel(text: string): Option<(int, int)> {
    if !StartsWith(text, PagePrefix) then None
    else
      var rest := text[|PagePrefix|..];
      match FirstIndexOf(rest, ' ')
      case None => None
      case Some(k) =>
        if !StartsWith(rest[k..], PageSeparator) then None
        else match (ParseInt(rest[..k]), ParseInt(rest[k + |PageSeparator|..]))
          case (Some(c), Some(t)) => Some((c, t))
          case _ => None
  }

  /** The label states both numbers unambiguously. */
  lemma PageLabelRoundTrip(current: int, total: int)
    ensures ParsePageLabel(PageLabel(current, total)) == Some((current, total))
  {
    var a := IntToString(current);
    var b := IntToString(total);
    var text := PageLabel(current, total);
    assert text[..|PagePrefix|] == PagePrefix;
    var rest := text[|PagePrefix|..];
    assert rest == a + PageSeparator + b;
    assert rest[|a|] == ' ';
    forall i | 0 <= i < |a| ensures rest[i] != ' ' {
      assert rest[i] == a[i];
    }
    assert FirstIndexOf(rest, ' ') == Some(|a|);
    assert rest[|a|..][..|PageSeparator|] == PageSeparator;
    assert rest[..|a|] == a;
    assert rest[|a| + |PageSeparator|..] == b;
    IntToStringRoundTrip(current);
    IntToStringRoundTrip(total);
  }

  /** No other spelling of the same two numbers (a leading zero, "-0", extra
      spaces) reads back: the label text is fixed by the numbers it states. */
  lemma PageLabelOnlySpelling(current: int, total: int)
    ensures forall text :: ParsePageLabel(text) == Some((current, total)) ==> text == PageLabel(current, total)
  {
    forall text | ParsePageLabel(text) == Some((current, total))
      ensures text == PageLabel(current, total)
    {
      PageLabelFromParse(text, current, total);
    }
  }

  lemma PageLabelFromParse(text: string, current: int, total: int)
    requires ParsePageLabel(text) == Some((current, total))
    ensures text == PageLabel(current, total)
  {
    assert StartsWith(text, PagePrefix);
    var rest := text[|PagePrefix|..];
    var k := FirstIndexOf(rest, ' ').value;
    assert StartsWith(rest[k..], PageSeparator);
    var a, b := rest[..k], rest[k + |PageSeparator|..];
    assert ParseInt(a) == Some(current) && ParseInt(b) == Some(total);
    ParseIntOnlyCanonical(a, current);
    ParseIntOnlyCanonical(b, total);
    SplitAround(text, |PagePrefix|, k, |PageSeparator|);
  }

  /** A text cut at the end of its prefix, and its rest cut around a
      separator of length `n` at `k`, is the concatenation of the pieces. */
  lemma SplitAround(text: string, p: nat, k: nat, n: nat)
    requires p <= |text| && k + n <= |text| - p
    ensures text == text[..p] + text[p..][..k] + text[p..][k..k + n] + text[p..][k + n..]
  {
    var rest := text[p..];
    assert rest == rest[..k] + rest[k..k + n] + rest[k + n..];
    assert text == text[..p] + rest;
  }

  const SfileOrigin: string := "https://sfile.co"
  const SfileOriginHttp: string := "http://sfile.co"

  /** `url.replace(/^https?:\/\/sfile\.co/, '')` */
  function StripSfileOrigin(url: string): (r: string)
    ensures StartsWith(url, SfileOrigin) ==> url == SfileOrigin + r
    ensures StartsWith(url, SfileOriginHttp) ==> url == SfileOriginHttp + r
    ensures !StartsWith(url, SfileOrigin) && !StartsWith(url, SfileOriginHttp) ==> r == url
  {
    assert StartsWith(url, SfileOrigin) ==> url[4] == SfileOrigin[4] == 's';
    assert StartsWith(url, SfileOriginHttp) ==> url[4] == SfileOriginHttp[4] == ':';
    if StartsWith(url, SfileOrigin) then url[|SfileOrigin|..]
    else if StartsWith(url, SfileOriginHttp) then url[|SfileOriginHttp|..]
    else url
  }

  /** The link a search result carries: an address mentioning `sfile.co` is
      re-rooted on `https://sfile.co` (an `http` or `https` origin in front is
      replaced, anything else is kept behind the new origin); other addresses
      are kept as they are. */
  function NormalizeResultUrl(url: string): (r: string)
    ensures !Includes(url, "sfile.co") ==> r == url
    ensures Includes(url, "sfile.co") ==> StartsWith(r, SfileOrigin)
    ensures StartsWith(url, SfileOrigin) ==> r == url
    ensures StartsWith(url, SfileOriginHttp) ==> r == SfileOrigin + url[|SfileOriginHttp|..]
    ensures Includes(url, "sfile.co") && !StartsWith(url, SfileOrigin) && !StartsWith(url, SfileOriginHttp) ==>
      r == SfileOrigin + url
  {
    OriginMentionsHost(url);
    if Includes(url, "sfile.co") then SfileOrigin + StripSfileOrigin(url) else url
  }

  lemma OriginMentionsHost(url: string)
    ensures StartsWith(url, SfileOrigin) || StartsWith(url, SfileOriginHttp) ==> Includes(url, "sfile.co")
  {
    if StartsWith(url, SfileOrigin) {
      assert url[8..16] == SfileOrigin[8..16];
      assert OccursAt(url, "sfile.co", 8);
    } else if StartsWith(url, SfileOriginHttp) {
      assert url[7..15] == SfileOriginHttp[7..15];
      assert OccursAt(url, "sfile.co", 7);
    }
  }

  /** A link that mentions `sfile.co` somewhere other than at its origin is
      not re-rooted but has the origin glued in front of it whole. */
  lemma NormalizeKeepsForeignOrigin()
    ensures NormalizeResultUrl("https://www.sfile.co/x") == SfileOrigin + "https://www.sfile.co/x"
  {
    var url := "https://www.sfile.co/x";
    ForeignOriginFacts(url);
  }

  lemma ForeignOriginFacts(url: string)
    requires url == "https://www.sfile.co/x"
    ensures Includes(url, "sfile.co")
    ensures !StartsWith(url, SfileOrigin) && !StartsWith(url, SfileOriginHttp)
  {
    assert OccursAt(url, "sfile.co", 12) by { assert url[12..20] == "sfile.co"; }
    assert url[8] == 'w' && SfileOrigin[8] == 's';
    assert url[4] == 's' && SfileOriginHttp[4] == ':';
  }

  /** The three shapes of the download button in `displayDownloadInfo`. */
  datatype DownloadAction =
    | ProxyLink(target: string, cookies: string, fileName: string)
    | NavigateButton(target: string)
    | NewTabLink(target: string)

  /** A proxied link (carrying the stored cookies) for a `simfile.co` source
      when cookies are held; otherwise a button navigating the page for a
      source mentioning `sfile.co`; otherwise a link opening a new tab. */
  function ChooseDownloadAction(cookies: string, sourceUrl: string, info: DownloadInfo): (a: DownloadAction)
    ensures a.ProxyLink? <==> cookies != "" && Includes(sourceUrl, "simfile.co")
    ensures a.NavigateButton? <==> !a.ProxyLink? && Includes(sourceUrl, "sfile.co")
    ensures a.target == info.downloadUrl
    ensures a.ProxyLink? ==> a.cookies == cookies && a.fileName == info.name
  {
    if cookies != "" && Includes(sourceUrl, "simfile.co") then ProxyLink(info.downloadUrl, cookies, info.name)
    else if Includes(sourceUrl, "sfile.co") then NavigateButton(info.downloadUrl)
    else NewTabLink(info.downloadUrl)
  }

  /** For a URL the download form accepts, the action depends on the
      provider alone (and, for `simfile.co`, on whether cookies are held):
      an `sfile.co` file always gets the navigating button, so cookies kept
      from a `simfile.co` resolution never reach an `sfile.co` download. */
  lemma ActionForAcceptedUrl(cookies: string, h: DownloadUrl.Host, id: string, slash: bool, info: DownloadInfo)
    requires DownloadUrl.IsFileId(id)
    ensures var a := ChooseDownloadAction(cookies, DownloadUrl.Compose(h, id, slash), info);
            && (h == DownloadUrl.Sfile ==> a == NavigateButton(info.downloadUrl))
            && (h == DownloadUrl.Simfile && cookies != "" ==> a == ProxyLink(info.downloadUrl, cookies, info.name))
            && (h == DownloadUrl.Simfile && cookies == "" ==> a == NewTabLink(info.downloadUrl))
  {
    DownloadUrl.HostRecognisable(h, id, slash);
  }

  /** One line of the file's specification list. */
  datatype SpecRow = SpecRow(title: string, value: string)

  /** The rows `displayDownloadInfo` considers, in display order. */
  function CandidateRows(info: DownloadInfo): seq<SpecRow> {
    [ SpecRow("File Name", info.name),
      SpecRow("File Size", info.size),
      SpecRow("File Type", info.mimeType),
      SpecRow("Uploaded", info.uploaded),
      SpecRow("Downloads", info.downloads) ]
  }

  /** Keeps the rows with a non-empty value, in order. */
  function NonEmptyRows(rows: seq<SpecRow>): (r: seq<SpecRow>)
    ensures |r| <= |rows|
    ensures forall x :: x in r <==> x in rows && x.value != ""
  {
    if rows == [] then []
    else if rows[0].value != "" then [rows[0]] + NonEmptyRows(rows[1..])
    else NonEmptyRows(rows[1..])
  }

  /** A single row is shown exactly when its value is non-empty. */
  function Shown(row: SpecRow): seq<SpecRow> {
    if row.value != "" then [row] else []
  }

  /** Filtering distributes over concatenation: the kept rows of `a + b` are
      the kept rows of `a` followed by those of `b`, so the filter never
      reorders. */
  lemma {:induction false} NonEmptyRowsAppend(a: seq<SpecRow>, b: seq<SpecRow>)
    ensures NonEmptyRows(a + b) == NonEmptyRows(a) + NonEmptyRows(b)
    decreases |a|
  {
    if a != [] {
      assert (a + b)[0] == a[0];
      assert (a + b)[1..] == a[1..] + b;
      NonEmptyRowsAppend(a[1..], b);
    } else {
      assert a + b == b;
    }
  }

  lemma NonEmptyRowsSingle(x: SpecRow)
    ensures NonEmptyRows([x]) == Shown(x)
  {
    assert [x][1..] == [];
  }

  /** The candidate rows that are shown keep the display order. */
  lemma CandidateRowsInOrder(info: DownloadInfo)
    ensures NonEmptyRows(CandidateRows(info)) ==
      Shown(SpecRow("File Name", info.name)) + Shown(SpecRow("File Size", info.size))
      + Shown(SpecRow("File Type", info.mimeType)) + Shown(SpecRow("Uploaded", info.uploaded))
      + Shown(SpecRow("Downloads", info.downloads))
  {
    var c := CandidateRows(info);
    var a, b, d, e, f := [c[0]], [c[1]], [c[2]], [c[3]], [c[4]];
    assert c == a + b + d + e + f;
    NonEmptyRowsAppend(a + b + d + e, f);
    NonEmptyRowsAppend(a + b + d, e);
    NonEmptyRowsAppend(a + b, d);
    NonEmptyRowsAppend(a, b);
    NonEmptyRowsSingle(c[0]);
    NonEmptyRowsSingle(c[1]);
    NonEmptyRowsSingle(c[2]);
    NonEmptyRowsSingle(c[3]);
    NonEmptyRowsSingle(c[4]);
  }

  /** The specification list: the present fields in the fixed order name,
      size, type, upload date, downloads, then the source URL. */
  function SpecRows(info: DownloadInfo, sourceUrl: string): (r: seq<SpecRow>)
    ensures |r| >= 1 && r[|r| - 1] == SpecRow("Source URL", sourceUrl)
    ensures forall x :: x in r[..|r| - 1] <==> x in CandidateRows(info) && x.value != ""
    ensures r[..|r| - 1] ==
      Shown(SpecRow("File Name", info.name)) + Shown(SpecRow("File Size", info.size))
      + Shown(SpecRow("File Type", info.mimeType)) + Shown(SpecRow("Uploaded", info.uploaded))
      + Shown(SpecRow("Downloads", info.downloads))
  {
    CandidateRowsInOrder(info);
    var rows := NonEmptyRows(CandidateRows(info)) + [SpecRow("Source URL", sourceUrl)];
    assert rows[..|rows| - 1] == NonEmptyRows(CandidateRows(info));
    rows
  }
}
