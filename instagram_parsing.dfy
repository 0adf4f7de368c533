/** `InstagramParsingService.parseReelMetadata`: the reel URL is normalised
    and turned into a thumbnail URL; the caption comes from elsewhere and is
    only trimmed here. */
module InstagramParsing {
  import opened JavaText

  /** The `String[]{thumbnailUrl, caption}` the parser returns. */
  datatype Metadata = Metadata(thumbnailUrl: string, caption: string)

  /** `url.substring(0, url.indexOf("?"))` when the URL has a `?`: the URL
      up to its first `?`. */
  function StripQuery(url: string): (r: string)
    ensures |r| <= |url| && r == url[..|r|]
    ensures '?' !in r
    ensures |r| < |url| ==> url[|r|] == '?'
  {
    if Contains(url, "?") then
      var q := IndexOfFrom(url, "?", 0);
      assert url[q..q + 1] == "?";
      forall i | 0 <= i < q
        ensures url[i] != '?'
      {
        assert !OccursAt(url, "?", i);
        assert url[i..i + 1] == [url[i]];
      }
      url[..q]
    else
      forall i | 0 <= i < |url|
        ensures url[i] != '?'
      {
        assert !OccursAt(url, "?", i);
        assert url[i..i + 1] == [url[i]];
      }
      url
  }

  /** The URL without its query and without one trailing `/`. */
  function NormalizeUrl(url: string): (r: string)
    ensures |r| <= |url| && r == url[..|r|]
    ensures '?' !in r
    ensures |StripQuery(url)| - 1 <= |r| <= |StripQuery(url)|
    ensures |r| < |StripQuery(url)| ==> url[|r|] == '/'
  {
    var a := StripQuery(url);
    if EndsWith(a, "/") then a[..|a| - 1] else a
  }

  /** Whatever follows the first `?` is ignored. */
  lemma {:induction false} QueryIgnored(base: string, query: string)
    requires '?' !in base
    ensures StripQuery(base + "?" + query) == base
    ensures NormalizeUrl(base + "?" + query) == NormalizeUrl(base)
  {
    var url := base + "?" + query;
    var r := StripQuery(url);
    assert forall i :: 0 <= i < |base| ==> url[i] == base[i];
    assert url[|base|] == '?';
    assert r[..] == url[..|r|];
    assert forall i :: 0 <= i < |r| ==> r[i] != '?';
    assert StripQuery(base) == base;
  }

  /** `normalizedUrl.replace("/reel/", "/p/") + "/media/?size=l"`. */
  function ThumbnailUrl(url: string): (r: string)
    ensures EndsWith(r, "/media/?size=l")
  {
    var t := ReplaceAll(NormalizeUrl(url), "/reel/", "/p/") + "/media/?size=l";
    assert t[|t| - |"/media/?size=l"|..] == "/media/?size=l";
    t
  }

  /** `parseReelMetadata`: the thumbnail URL and the caption, both trimmed.
      The thumbnail is the media URL built from the reel URL, of which
      `trim()` removes at most leading characters, so it still ends with
      `/media/?size=l`. */
  function ParseReelMetadata(url: string, caption: string): (m: Metadata)
    ensures IsTrimmed(m.thumbnailUrl) && IsTrimmed(m.caption)
    ensures var t := ThumbnailUrl(url); m.thumbnailUrl == t[TrimOffset(t)..]
    ensures EndsWith(m.thumbnailUrl, "/media/?size=l")
    ensures IsTrimMiddle(m.caption, caption)
  {
    ThumbnailSurvivesTrim(url);
    TrimIsMiddle(caption);
    Metadata(Trim(ThumbnailUrl(url)), Trim(caption))
  }

  /** Trimming the thumbnail URL keeps its media suffix. */
  lemma ThumbnailSurvivesTrim(url: string)
    ensures var t := ThumbnailUrl(url);
      Trim(t) == t[TrimOffset(t)..] && EndsWith(Trim(t), "/media/?size=l")
  {
    var suffix := "/media/?size=l";
    assert forall i :: 0 <= i < |suffix| ==> !IsTrimmable(suffix[i]);
    TrimKeepsSuffix(ThumbnailUrl(url), suffix);
  }

  const InstagramHost: string := "https://www.instagram.com"

  /** The form in which the app shares a reel. */
  const ReelPrefix: string := InstagramHost + "/reel/"

  /** One trailing slash is dropped. */
  lemma {:induction false} NormalizeDropsSlash(p: string)
    requires '?' !in p
    ensures NormalizeUrl(p + "/") == p
  {
    var base := p + "/";
    assert '?' !in base;
    assert StripQuery(base) == base;
    assert EndsWith(base, "/");
    assert base[..|base| - 1] == p;
  }

  /** `"/reel/"` does not occur before the path of a reel link. */
  lemma {:induction false} HostHasNoReelSegment(h: string, rest: string)
    requires h == InstagramHost
    ensures forall i :: 0 <= i < |h| ==> !OccursAt(h + "/reel/" + rest, "/reel/", i)
  {
    var s := h + "/reel/" + rest;
    forall i | 0 <= i < |h|
      ensures !OccursAt(s, "/reel/", i)
    {
      if i + 6 <= |s| {
        assert s[i..i + 6][0] == s[i] && s[i..i + 6][1] == s[i + 1];
        if i + 1 < |h| {
          assert s[i] == h[i] && s[i + 1] == h[i + 1];
          assert !(h[i] == '/' && h[i + 1] == 'r');
        } else {
          assert s[i + 1] == '/';
        }
      }
    }
  }

  /** A string without `/` has no `"/reel/"` to replace. */
  lemma {:induction false} NoSlashNoReelSegment(code: string)
    requires '/' !in code
    ensures forall i :: 0 <= i <= |code| ==> !OccursAt(code, "/reel/", i)
  {
    forall i | 0 <= i <= |code|
      ensures !OccursAt(code, "/reel/", i)
    {
      if i + 6 <= |code| {
        assert code[i..i + 6][0] == code[i];
      }
    }
  }

  /** A shared reel link `https://www.instagram.com/reel/<code>/?<query>`
      gives the post's media URL `https://www.instagram.com/p/<code>/media/?size=l`. */
  lemma {:induction false} ReelLinkThumbnail(code: string, query: string)
    requires '/' !in code && '?' !in code
    ensures ThumbnailUrl(ReelPrefix + code + "/?" + query)
      == InstagramHost + "/p/" + code + "/media/?size=l"
  {
    var p := InstagramHost + "/reel/" + code;
    assert '?' !in InstagramHost;
    assert '?' !in p;
    assert ReelPrefix + code + "/?" + query == (p + "/") + "?" + query;
    QueryIgnored(p + "/", query);
    NormalizeDropsSlash(p);
    HostHasNoReelSegment(InstagramHost, code);
    ReplaceAllFirst(InstagramHost, "/reel/", "/p/", code);
    NoSlashNoReelSegment(code);
    ReplaceAllAbsent(code, "/reel/", "/p/");
  }

  /** For a shared reel link the parser returns the media URL unchanged by
      trimming, whatever the caption. */
  lemma {:induction false} ReelLinkMetadata(code: string, query: string, caption: string)
    requires '/' !in code && '?' !in code
    ensures ParseReelMetadata(ReelPrefix + code + "/?" + query, caption).thumbnailUrl
      == InstagramHost + "/p/" + code + "/media/?size=l"
  {
    ReelLinkThumbnail(code, query);
    var t := InstagramHost + "/p/" + code + "/media/?size=l";
    assert t[0] == 'h' && t[|t| - 1] == 'l';
    TrimOfTrimmed(t);
  }
}
