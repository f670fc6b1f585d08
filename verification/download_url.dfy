/** The check `handleDownload` applies before asking the backend to resolve a
    link: the two regular expressions `^https:\/\/sfile\.co\/[a-zA-Z0-9]+\/?$`
    and `^https:\/\/simfile\.co\/[a-zA-Z0-9]+\/?$`. */
module DownloadUrl {
  import opened JsString

  /** The two file-hosting providers the validator accepts. */
  datatype Host = Sfile | Simfile

  function HostName(h: Host): string {
    match h
    case Sfile => "sfile.co"
    case Simfile => "simfile.co"
  }

  /** The fixed part of an accepted URL, up to and including the slash
      before the file id. */
  function Origin(h: Host): string {
    "https://" + HostName(h) + "/"
  }

  /** The character class `[a-zA-Z0-9]`. */
  predicate IsAsciiAlnum(c: char) {
    ('a' <= c <= 'z') || ('A' <= c <= 'Z') || ('0' <= c <= '9')
  }

  /** `[a-zA-Z0-9]+` */
  predicate IsFileId(id: string) {
    |id| > 0 && forall i :: 0 <= i < |id| ==> IsAsciiAlnum(id[i])
  }

  /** The language of the pattern, written generatively: the origin, a file
      id, and an optional trailing slash. */
  function Compose(h: Host, id: string, slash: bool): string {
    Origin(h) + id + (if slash then "/" else "")
  }

  /** What follows the origin, with at most one trailing '/' removed. */
  function IdPart(url: string, h: Host): string
    requires StartsWith(url, Origin(h))
  {
    var rest := url[|Origin(h)|..];
    if rest != [] && rest[|rest| - 1] == '/' then rest[..|rest| - 1] else rest
  }

  /** One of the two regular expressions, matched left to right: the literal
      origin, then the rest with at most one trailing '/' removed must be a
      file id. It accepts exactly the language of the pattern. */
  function MatchesPattern(url: string, h: Host): (m: bool)
    ensures m <==> exists id, slash :: IsFileId(id) && url == Compose(h, id, slash)
  {
    LeftToRight(url, h);
    StartsWith(url, Origin(h)) && IsFileId(IdPart(url, h))
  }

  /** The URL passes at least one of the two regular expressions, which is
      to say it belongs to the language of one of them. */
  function IsAcceptedUrl(url: string): (b: bool)
    ensures b <==> InPatternLanguage(url)
  {
    MatchesPattern(url, Sfile) || MatchesPattern(url, Simfile)
  }

  /** The URL belongs to the language of one of the two patterns. */
  ghost predicate InPatternLanguage(url: string) {
    exists h, id, slash :: IsFileId(id) && url == Compose(h, id, slash)
  }

  /** Reading the origin and then the id accepts exactly the pattern's
      language. */
  lemma LeftToRight(url: string, h: Host)
    ensures StartsWith(url, Origin(h)) && IsFileId(IdPart(url, h)) <==>
            exists id, slash :: IsFileId(id) && url == Compose(h, id, slash)
  {
    if StartsWith(url, Origin(h)) && IsFileId(IdPart(url, h)) {
      PatternSound(url, h);
    }
    forall id, slash | IsFileId(id) && url == Compose(h, id, slash)
      ensures StartsWith(url, Origin(h)) && IsFileId(IdPart(url, h))
    {
      PatternComplete(h, id, slash);
    }
  }

  /** Reading a URL of the pattern's language left to right finds its
      origin and recovers its file id. */
  lemma PatternComplete(h: Host, id: string, slash: bool)
    requires IsFileId(id)
    ensures StartsWith(Compose(h, id, slash), Origin(h))
    ensures IdPart(Compose(h, id, slash), h) == id
  {
    var url := Compose(h, id, slash);
    var o := Origin(h);
    assert url[..|o|] == o;
    assert url[|o|..] == id + (if slash then "/" else "");
    if !slash {
      assert id[|id| - 1] != '/' by { assert IsAsciiAlnum(id[|id| - 1]); }
    } else {
      assert (id + "/")[..|id|] == id;
    }
  }

  /** Every URL the left-to-right reading accepts belongs to the pattern's
      language. */
  lemma PatternSound(url: string, h: Host)
    requires StartsWith(url, Origin(h)) && IsFileId(IdPart(url, h))
    ensures exists id, slash :: IsFileId(id) && url == Compose(h, id, slash)
  {
    var o := Origin(h);
    var rest := url[|o|..];
    assert url == o + rest;
    if rest != [] && rest[|rest| - 1] == '/' {
      var id := rest[..|rest| - 1];
      assert rest == id + "/";
      assert url == Compose(h, id, true);
    } else {
      assert url == Compose(h, rest, false);
    }
  }

  /** The index of the one '.' an accepted URL contains. */
  function DotIndex(h: Host): nat {
    |HostName(h)| + 5
  }

  lemma OnlyDot(h: Host, id: string, slash: bool)
    requires IsFileId(id)
    ensures forall k :: 0 <= k < |Compose(h, id, slash)| && Compose(h, id, slash)[k] == '.' ==> k == DotIndex(h)
  {
    var url := Compose(h, id, slash);
    var o := Origin(h);
    forall k | 0 <= k < |url| && k != DotIndex(h) ensures url[k] != '.' {
      if k >= |o| + |id| {
        assert url[k] == '/';
      } else if k >= |o| {
        assert url[k] == id[k - |o|];
        assert IsAsciiAlnum(id[k - |o|]);
      } else {
        assert url[k] == o[k];
      }
    }
  }

  lemma OccursAtChars(s: string, p: string, k: int)
    requires OccursAt(s, p, k)
    ensures forall m :: 0 <= m < |p| ==> s[k + m] == p[m]
  {
    forall m | 0 <= m < |p| ensures s[k + m] == p[m] {
      assert s[k..k + |p|][m] == s[k + m];
    }
  }

  /** An accepted URL names its own provider and not the other: the
      substring tests the download view applies to it tell the two hosts
      apart. */
  lemma HostRecognisable(h: Host, id: string, slash: bool)
    requires IsFileId(id)
    ensures Includes(Compose(h, id, slash), "sfile.co") <==> h == Sfile
    ensures Includes(Compose(h, id, slash), "simfile.co") <==> h == Simfile
  {
    var url := Compose(h, id, slash);
    var o := Origin(h);
    assert url[..|o|] == o;
    assert OccursAt(url, HostName(h), 8) by {
      assert url[8..8 + |HostName(h)|] == o[8..8 + |HostName(h)|];
    }
    match h
    case Sfile => NoOtherHost(id, slash, "simfile.co", 7, 6);
    case Simfile => NoOtherHost(id, slash, "sfile.co", 5, 10);
  }

  /** `p` has its '.' at offset `dot`, and an occurrence of `p` in an
      accepted URL would have to start at `start`, where the URL holds some
      character other than 's'. */
  lemma NoOtherHost(id: string, slash: bool, p: string, dot: nat, start: nat)
    requires IsFileId(id)
    requires (p, dot, start) == ("simfile.co", 7, 6) || (p, dot, start) == ("sfile.co", 5, 10)
    ensures var h := if p == "simfile.co" then Sfile else Simfile;
            !Includes(Compose(h, id, slash), p)
  {
    var h := if p == "simfile.co" then Sfile else Simfile;
    var url := Compose(h, id, slash);
    var o := Origin(h);
    assert url[..|o|] == o;
    assert start + dot == DotIndex(h) && p[0] == 's' && p[dot] == '.';
    assert url[start] != 's' by { assert url[start] == o[start]; }
    OnlyDot(h, id, slash);
    forall k | OccursAt(url, p, k) ensures false {
      OccursAtChars(url, p, k);
    }
  }
}
