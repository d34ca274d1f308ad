/** Search-results page post-processing: `extract_google_urls` and
    `is_valid_url`. The four CSS-selector passes are given as the `href`
    values they found, in pass order (an anchor without `href` gives ""). */
module ResultPage {
  import opened Common
  import opened Text

  const RedirectPrefix: string := "/url?q="
  const TrackingParam: string := "&sa="

  /** An occurrence inside a prefix is an occurrence in the whole string. */
  lemma OccursInPrefix(s: string, t: string, i: nat, j: int)
    requires i <= |s| && OccursAt(s[..i], t, j)
    ensures OccursAt(s, t, j) && j + |t| <= i
  {
    assert s[..i][j..j + |t|] == s[j..j + |t|];
  }

  /** What one href contributes to the candidate list: a redirect link
      loses its prefix and everything from the first tracking parameter on;
      any other link is kept as it is when it starts with "http" and does
      not mention google.com. */
  function ResolveHref(href: string): (r: Option<string>)
    ensures StartsWith(href, RedirectPrefix) ==>
      r.Some? && StartsWith(href, RedirectPrefix + r.value) && !Contains(r.value, TrackingParam)
    ensures !StartsWith(href, RedirectPrefix) ==>
      (r.Some? <==> StartsWith(href, "http") && !Contains(href, "google.com")) && (r.Some? ==> r.value == href)
  {
    if StartsWith(href, RedirectPrefix) then
      var actual := href[7..];
      assert href == RedirectPrefix + actual;
      if Contains(actual, TrackingParam) then
        var cut := Find(actual, TrackingParam);
        var v := actual[..cut];
        assert !Contains(v, TrackingParam) by {
          if Contains(v, TrackingParam) {
            OccursInPrefix(actual, TrackingParam, cut, Find(v, TrackingParam));
          }
        }
        assert href[..7 + |v|] == RedirectPrefix + v;
        Some(v)
      else
        Some(actual)
    else if StartsWith(href, "http") && !Contains(href, "google.com") then Some(href)
    else None
  }

  /** A redirect link around a destination without tracking parameters,
      optionally followed by them, is unwrapped to exactly that destination. */
  lemma RedirectUnwrap(dest: string, tail: string)
    requires !Contains(dest, TrackingParam)
    requires tail == "" || StartsWith(tail, TrackingParam)
    ensures ResolveHref(RedirectPrefix + dest + tail) == Some(dest)
  {
    var href := RedirectPrefix + dest + tail;
    assert href[..7] == RedirectPrefix;
    var actual := href[7..];
    assert actual == dest + tail;
    forall j | 0 <= j < |dest| ensures !OccursAt(actual, TrackingParam, j) {
      if j + 4 <= |dest| {
        assert !OccursAt(dest, TrackingParam, j);
        assert dest[j..j + 4] == actual[j..j + 4];
      } else if tail != "" {
        assert tail[..4] == TrackingParam;
        NoStraddle(actual, j, |dest|);
      }
    }
    if tail == "" {
      assert actual == dest;
    } else {
      assert OccursAt(actual, TrackingParam, |dest|) by {
        assert actual[|dest|..|dest| + 4] == tail[..4];
      }
      var cut := Find(actual, TrackingParam);
      assert cut == |dest|;
      assert actual[..cut] == dest;
    }
  }

  /** An '&' at one of the next three positions after `j` rules out an
      occurrence of the tracking parameter at `j`, whose '&' is its first
      character only. */
  lemma NoStraddle(s: string, j: int, m: int)
    requires 0 <= j < m < |s| && m - j < 4 && s[m] == '&'
    ensures !OccursAt(s, TrackingParam, j)
  {
    if j + 4 <= |s| {
      assert s[j..j + 4][m - j] == s[m];
    }
  }

  /** The candidate list built by the selector loop, in href order. */
  function Candidates(hrefs: seq<string>): seq<string>
  {
    if hrefs == [] then []
    else
      var init := Candidates(hrefs[..|hrefs| - 1]);
      match ResolveHref(hrefs[|hrefs| - 1])
      case None => init
      case Some(u) => init + [u]
  }

  // ---------------------------------------------------------------------
  // `urlparse`: the scheme and netloc split of Python's urllib.parse.urlsplit.

  datatype Url = Url(scheme: string, netloc: string)

  predicate IsSchemeChar(c: char)
  {
    IsAsciiLetter(c) || ('0' <= c <= '9') || c == '+' || c == '-' || c == '.'
  }

  predicate IsNetlocDelimiter(c: char)
  {
    c == '/' || c == '?' || c == '#'
  }

  /** The first index at or after `i` holding '/', '?' or '#', or |s|. */
  function NetlocEnd(s: string, i: nat): (e: nat)
    requires i <= |s|
    decreases |s| - i
    ensures i <= e <= |s|
    ensures forall k :: i <= k < e ==> !IsNetlocDelimiter(s[k])
    ensures e < |s| ==> IsNetlocDelimiter(s[e])
  {
    if i == |s| || IsNetlocDelimiter(s[i]) then i else NetlocEnd(s, i + 1)
  }

  /** The netloc scan stops at the first delimiter. */
  lemma {:induction false} NetlocEndAt(s: string, i: nat, e: nat)
    requires i <= e <= |s|
    requires forall k :: i <= k < e ==> !IsNetlocDelimiter(s[k])
    requires e == |s| || IsNetlocDelimiter(s[e])
    ensures NetlocEnd(s, i) == e
    decreases e - i
  {
    if i < e {
      NetlocEndAt(s, i + 1, e);
    }
  }

  /** A tab, line feed or carriage return: `urlsplit` deletes these
      wherever they occur. */
  predicate IsUnsafeUrlChar(c: char)
  {
    c == '\t' || c == '\n' || c == '\r'
  }

  /** Text holding no tab, line feed or carriage return. */
  predicate NoUnsafe(s: string)
  {
    forall k :: 0 <= k < |s| ==> !IsUnsafeUrlChar(s[k])
  }

  /** A C0 control character or a space: `urlsplit` strips these from the
      start of the URL. */
  predicate IsC0OrSpace(c: char)
  {
    c as int <= 32
  }

  /** `url.lstrip(...)` over the C0 controls and space. */
  function LStripC0(s: string): (r: string)
    ensures |r| <= |s| && r == s[|s| - |r|..]
    ensures r == "" || !IsC0OrSpace(r[0])
    ensures forall k :: 0 <= k < |s| - |r| ==> IsC0OrSpace(s[k])
  {
    if |s| > 0 && IsC0OrSpace(s[0]) then
      var r := LStripC0(s[1..]);
      assert forall k :: 1 <= k < |s| - |r| ==> s[k] == s[1..][k - 1];
      r
    else s
  }

  /** The text with every tab, line feed and carriage return deleted. */
  function RemoveUnsafe(s: string): (r: string)
    ensures |r| <= |s|
    ensures NoUnsafe(r)
  {
    if s == "" then ""
    else (if IsUnsafeUrlChar(s[0]) then "" else [s[0]]) + RemoveUnsafe(s[1..])
  }

  /** Text without tabs and line breaks is left as it is. */
  lemma {:induction false} RemoveUnsafeClean(s: string)
    requires NoUnsafe(s)
    ensures RemoveUnsafe(s) == s
  {
    if s != "" {
      RemoveUnsafeClean(s[1..]);
      assert s == [s[0]] + s[1..];
    }
  }

  /** Deletion works piece by piece. */
  lemma {:induction false} RemoveUnsafeAppend(a: string, b: string)
    ensures RemoveUnsafe(a + b) == RemoveUnsafe(a) + RemoveUnsafe(b)
  {
    if a != "" {
      var x := if IsUnsafeUrlChar(a[0]) then "" else [a[0]];
      assert (a + b)[0] == a[0];
      assert (a + b)[1..] == a[1..] + b;
      RemoveUnsafeAppend(a[1..], b);
      calc {
        RemoveUnsafe(a + b);
        x + RemoveUnsafe(a[1..] + b);
        x + (RemoveUnsafe(a[1..]) + RemoveUnsafe(b));
        (x + RemoveUnsafe(a[1..])) + RemoveUnsafe(b);
      }
    } else {
      assert a + b == b;
    }
  }

  /** Deleting characters from text free of '/', '?' and '#' leaves it so. */
  lemma {:induction false} RemoveUnsafeNoDelimiter(s: string)
    requires forall k :: 0 <= k < |s| ==> !IsNetlocDelimiter(s[k])
    ensures forall k :: 0 <= k < |RemoveUnsafe(s)| ==> !IsNetlocDelimiter(RemoveUnsafe(s)[k])
  {
    if s != "" {
      RemoveUnsafeNoDelimiter(s[1..]);
    }
  }

  /** Any other character occurs in the result exactly when it occurs in
      the text. */
  lemma {:induction false} RemoveUnsafeKeeps(s: string, c: char)
    requires !IsUnsafeUrlChar(c)
    ensures c in RemoveUnsafe(s) <==> c in s
  {
    if s != "" {
      RemoveUnsafeKeeps(s[1..], c);
      assert s == [s[0]] + s[1..];
    }
  }

  /** The text `urlsplit` goes on to split: the URL without its leading C0
      controls and spaces, and without any tab, line feed or carriage
      return. */
  function Sanitize(url: string): string
  {
    RemoveUnsafe(LStripC0(url))
  }

  /** The split `urlsplit` performs on the sanitized text: the text before
      the first ':' is the scheme (lowered) when it is non-empty, starts
      with an ASCII letter and consists of scheme characters; after it, a
      "//" opens the netloc, which runs to the next '/', '?' or '#'. A
      netloc with an unmatched '[' or ']' makes the parse raise ValueError,
      here None. */
  function SplitUrl(url: string): Option<Url>
  {
    var i := Find(url, ":");
    var hasScheme := i > 0 && IsAsciiLetter(url[0]) && forall k :: 0 <= k < i ==> IsSchemeChar(url[k]);
    var scheme := if hasScheme then Lower(url[..i]) else "";
    var rest := if hasScheme then url[i + 1..] else url;
    if StartsWith(rest, "//") then
      var netloc := rest[2..NetlocEnd(rest, 2)];
      if ('[' in netloc) != (']' in netloc) then None
      else Some(Url(scheme, netloc))
    else Some(Url(scheme, ""))
  }

  /** A netloc the split finds holds no delimiter, holds no tab, CR or LF
      when the text holds none, holds '[' exactly when it holds ']', and
      the scheme is in lower
      case. */
  lemma SplitUrlShape(url: string)
    ensures var r := SplitUrl(url);
      && (r.Some? ==> forall k :: 0 <= k < |r.value.netloc| ==> !IsNetlocDelimiter(r.value.netloc[k]))
      && (r.Some? && NoUnsafe(url) ==> NoUnsafe(r.value.netloc))
      && (r.Some? ==> ('[' in r.value.netloc) == (']' in r.value.netloc))
      && (r.Some? ==> forall k :: 0 <= k < |r.value.scheme| ==> !('A' <= r.value.scheme[k] <= 'Z'))
  {
    var i := Find(url, ":");
    var hasScheme := i > 0 && IsAsciiLetter(url[0]) && forall k :: 0 <= k < i ==> IsSchemeChar(url[k]);
    var rest := if hasScheme then url[i + 1..] else url;
    if StartsWith(rest, "//") {
      var e := NetlocEnd(rest, 2);
      var netloc := rest[2..e];
      if NoUnsafe(url) {
        forall k | 0 <= k < |netloc| ensures !IsUnsafeUrlChar(netloc[k]) {
          if hasScheme {
            assert netloc[k] == url[i + 3 + k];
          } else {
            assert netloc[k] == url[2 + k];
          }
        }
      }
    }
  }

  /** `urlparse(url)`: the split of the sanitized URL. A netloc it finds
      holds no '/', '?', '#', tab or line break, and holds '[' exactly
      when it holds ']'; the scheme is in lower case. */
  function UrlParse(url: string): (r: Option<Url>)
    ensures r.Some? ==> forall k :: 0 <= k < |r.value.netloc| ==> !IsNetlocDelimiter(r.value.netloc[k])
    ensures r.Some? ==> NoUnsafe(r.value.netloc)
    ensures r.Some? ==> ('[' in r.value.netloc) == (']' in r.value.netloc)
    ensures r.Some? ==> forall k :: 0 <= k < |r.value.scheme| ==> !('A' <= r.value.scheme[k] <= 'Z')
  {
    SplitUrlShape(Sanitize(url));
    SplitUrl(Sanitize(url))
  }

  /** What `is_valid_url` accepts of a parse: scheme http or https, a
      non-empty netloc that, lowered, mentions neither google.com nor
      googleusercontent.com; a parse error is "not valid". */
  predicate AcceptedParse(p: Option<Url>)
  {
    match p
    case None => false
    case Some(u) =>
      && (u.scheme == "http" || u.scheme == "https")
      && u.netloc != ""
      && !Contains(Lower(u.netloc), "google.com")
      && !Contains(Lower(u.netloc), "googleusercontent.com")
  }

  /** `is_valid_url(url)`. */
  predicate IsValidUrl(url: string)
  {
    AcceptedParse(UrlParse(url))
  }

  /** Leading controls and spaces make no difference to the parse. */
  lemma {:induction false} LeadingC0Ignored(pad: string, url: string)
    requires forall k :: 0 <= k < |pad| ==> IsC0OrSpace(pad[k])
    ensures LStripC0(pad + url) == LStripC0(url)
    ensures UrlParse(pad + url) == UrlParse(url)
  {
    if pad != "" {
      assert (pad + url)[0] == pad[0];
      assert (pad + url)[1..] == pad[1..] + url;
      LeadingC0Ignored(pad[1..], url);
    } else {
      assert pad + url == url;
    }
  }

  /** A valid URL, once sanitized, begins, ignoring case, with "http://" or
      "https://". */
  lemma ValidUrlHasWebScheme(url: string)
    requires IsValidUrl(url)
    ensures StartsWith(Lower(Sanitize(url)), "http://") || StartsWith(Lower(Sanitize(url)), "https://")
  {
    AcceptedWebScheme(Sanitize(url));
  }

  /** An accepted split is of text that begins, ignoring case, with
      "http://" or "https://". */
  lemma AcceptedWebScheme(s: string)
    requires AcceptedParse(SplitUrl(s))
    ensures StartsWith(Lower(s), "http://") || StartsWith(Lower(s), "https://")
  {
    var i := Find(s, ":");
    ValidUrlParts(s);
    var rest := s[i + 1..];
    assert rest[..2] == "//";
    assert s[i..i + 3] == "://" by {
      assert s[i + 1] == rest[0] && s[i + 2] == rest[1];
    }
    LowerWebPrefix(s, i);
  }

  /** What an accepted split says of the text: a scheme ending at the first
      ':' that lowers to http or https, followed by "//". */
  lemma ValidUrlParts(url: string)
    requires AcceptedParse(SplitUrl(url))
    ensures var i := Find(url, ":");
      && 0 < i < |url| && url[i] == ':'
      && (Lower(url[..i]) == "http" || Lower(url[..i]) == "https")
      && StartsWith(url[i + 1..], "//")
  {
    var i := Find(url, ":");
    var hasScheme := i > 0 && IsAsciiLetter(url[0]) && forall k :: 0 <= k < i ==> IsSchemeChar(url[k]);
    assert hasScheme;
    assert url[i..i + 1] == ":";
  }

  /** Lowering keeps a "://" after the scheme in place. */
  lemma LowerWebPrefix(url: string, i: nat)
    requires i + 3 <= |url| && url[i..i + 3] == "://"
    ensures StartsWith(Lower(url), Lower(url[..i]) + "://")
  {
    var lo := Lower(url);
    var p := Lower(url[..i]) + "://";
    forall k | 0 <= k < |p| ensures lo[k] == p[k] {
      if k >= i {
        assert url[k] == url[i..i + 3][k - i];
      }
    }
    assert lo[..|p|] == p;
  }

  /** In "http:..." or "https:..." the first ':' ends the scheme. */
  lemma SchemeColon(scheme: string, after: string)
    requires scheme == "http" || scheme == "https"
    ensures Find(scheme + ":" + after, ":") == |scheme|
  {
    var url := scheme + ":" + after;
    var n := |scheme|;
    assert OccursAt(url, ":", n) by {
      assert url[n..n + 1] == ":";
    }
    forall j | 0 <= j < n ensures !OccursAt(url, ":", j) {
      assert url[j..j + 1][0] == scheme[j];
    }
  }

  /** After "//", a host free of '/', '?' and '#' is the whole netloc. */
  lemma NetlocIsHost(host: string, tail: string)
    requires forall k :: 0 <= k < |host| ==> !IsNetlocDelimiter(host[k])
    requires tail == "" || IsNetlocDelimiter(tail[0])
    ensures NetlocEnd("//" + host + tail, 2) == 2 + |host|
    ensures ("//" + host + tail)[2..2 + |host|] == host
  {
    var rest := "//" + host + tail;
    assert forall k :: 2 <= k < 2 + |host| ==> rest[k] == host[k - 2];
    assert tail != "" ==> rest[2 + |host|] == tail[0];
    NetlocEndAt(rest, 2, 2 + |host|);
  }

  /** An "http:" or "https:" prefix is recognised as the scheme. */
  lemma WebSchemeParse(scheme: string, rest: string)
    requires scheme == "http" || scheme == "https"
    ensures var url := scheme + ":" + rest;
      var i := Find(url, ":");
      && i == |scheme|
      && IsAsciiLetter(url[0]) && (forall k :: 0 <= k < i ==> IsSchemeChar(url[k]))
      && Lower(url[..i]) == scheme
      && url[i + 1..] == rest
  {
    var url := scheme + ":" + rest;
    SchemeColon(scheme, rest);
    assert url[..|scheme|] == scheme;
    assert url[|scheme| + 1..] == rest;
    assert forall k :: 0 <= k < |scheme| ==> url[k] == scheme[k];
    assert Lower(scheme) == scheme by {
      forall k | 0 <= k < |scheme| ensures Lower(scheme)[k] == scheme[k] {
      }
    }
  }

  /** The split of "scheme:" followed by "//", a delimiter-free host and a
      tail starting at a delimiter. */
  lemma SplitWebUrl(scheme: string, host: string, tail: string)
    requires scheme == "http" || scheme == "https"
    requires forall k :: 0 <= k < |host| ==> !IsNetlocDelimiter(host[k])
    requires tail == "" || IsNetlocDelimiter(tail[0])
    ensures SplitUrl(scheme + "://" + host + tail) ==
      if ('[' in host) != (']' in host) then None else Some(Url(scheme, host))
  {
    var rest := "//" + host + tail;
    assert scheme + "://" + host + tail == scheme + ":" + rest;
    WebSchemeParse(scheme, rest);
    NetlocIsHost(host, tail);
    assert StartsWith(rest, "//") by {
      assert rest[..2] == "//";
    }
  }

  /** Sanitizing "scheme://" + host + tail deletes the tabs and line breaks
      of host and tail and nothing else. */
  lemma WebUrlSanitized(scheme: string, host: string, tail: string)
    requires scheme == "http" || scheme == "https"
    ensures Sanitize(scheme + "://" + host + tail) == scheme + "://" + RemoveUnsafe(host) + RemoveUnsafe(tail)
  {
    var prefix := scheme + "://";
    var u := prefix + host + tail;
    assert u[0] == 'h';
    assert LStripC0(u) == u;
    RemoveUnsafeAppend(prefix + host, tail);
    RemoveUnsafeAppend(prefix, host);
    RemoveUnsafeClean(prefix);
  }

  /** A tail that starts at a delimiter still does once its tabs and line
      breaks are deleted. */
  lemma RemoveUnsafeTail(tail: string)
    requires tail == "" || IsNetlocDelimiter(tail[0])
    ensures RemoveUnsafe(tail) == "" || IsNetlocDelimiter(RemoveUnsafe(tail)[0])
  {
    if tail != "" {
      assert RemoveUnsafe(tail) == [tail[0]] + RemoveUnsafe(tail[1..]);
    }
  }

  /** The split of the sanitized text of such a URL. */
  lemma SplitSanitizedWebUrl(scheme: string, host: string, tail: string)
    requires scheme == "http" || scheme == "https"
    requires forall k :: 0 <= k < |host| ==> !IsNetlocDelimiter(host[k])
    requires tail == "" || IsNetlocDelimiter(tail[0])
    ensures SplitUrl(scheme + "://" + RemoveUnsafe(host) + RemoveUnsafe(tail)) ==
      if ('[' in host) != (']' in host) then None else Some(Url(scheme, RemoveUnsafe(host)))
  {
    var h := RemoveUnsafe(host);
    RemoveUnsafeTail(tail);
    RemoveUnsafeNoDelimiter(host);
    RemoveUnsafeKeeps(host, '[');
    RemoveUnsafeKeeps(host, ']');
    SplitWebUrl(scheme, h, RemoveUnsafe(tail));
  }

  /** "scheme:" followed by "//", a host free of '/', '?' and '#' and a
      tail starting at a delimiter parses to that scheme and the host
      without its tabs and line breaks, unless the host has an unmatched
      bracket, which makes the parse fail. */
  lemma ParseWebUrl(scheme: string, host: string, tail: string)
    requires scheme == "http" || scheme == "https"
    requires forall k :: 0 <= k < |host| ==> !IsNetlocDelimiter(host[k])
    requires tail == "" || IsNetlocDelimiter(tail[0])
    ensures UrlParse(scheme + "://" + host + tail) ==
      if ('[' in host) != (']' in host) then None else Some(Url(scheme, RemoveUnsafe(host)))
  {
    WebUrlSanitized(scheme, host, tail);
    SplitSanitizedWebUrl(scheme, host, tail);
  }

  /** Conversely, an http or https URL whose host is free of '/', '?', '#',
      '[' and ']', not empty and not a Google host once its tabs and line
      breaks are deleted, and followed by nothing or by a path, query or
      fragment, parses to that scheme and host and is valid. */
  lemma ValidUrlFromParts(scheme: string, host: string, tail: string)
    requires scheme == "http" || scheme == "https"
    requires forall k :: 0 <= k < |host| ==> !IsNetlocDelimiter(host[k])
    requires '[' !in host && ']' !in host
    requires RemoveUnsafe(host) != ""
    requires !Contains(Lower(RemoveUnsafe(host)), "google.com") && !Contains(Lower(RemoveUnsafe(host)), "googleusercontent.com")
    requires tail == "" || IsNetlocDelimiter(tail[0])
    ensures UrlParse(scheme + "://" + host + tail) == Some(Url(scheme, RemoveUnsafe(host)))
    ensures IsValidUrl(scheme + "://" + host + tail)
  {
    ParseWebUrl(scheme, host, tail);
  }

  /** A Google host is rejected, whatever its case and whatever tabs or
      line breaks are inserted in it. */
  lemma GoogleHostInvalid(scheme: string, host: string, tail: string)
    requires scheme == "http" || scheme == "https"
    requires forall k :: 0 <= k < |host| ==> !IsNetlocDelimiter(host[k])
    requires tail == "" || IsNetlocDelimiter(tail[0])
    requires Contains(Lower(RemoveUnsafe(host)), "google.com") || Contains(Lower(RemoveUnsafe(host)), "googleusercontent.com")
    ensures !IsValidUrl(scheme + "://" + host + tail)
  {
    var h := RemoveUnsafe(host);
    ParseWebUrl(scheme, host, tail);
    assert !AcceptedParse(Some(Url(scheme, h)));
  }

  /** Tabs and line breaks anywhere in the URL make no difference to the
      parse: deleting them first gives the same split. */
  lemma UnsafeCharsIgnored(url: string)
    ensures UrlParse(RemoveUnsafe(url)) == UrlParse(url)
    ensures IsValidUrl(RemoveUnsafe(url)) == IsValidUrl(url)
  {
    SanitizeRemovesUnsafe(url);
  }

  /** Sanitizing text with its tabs and line breaks already deleted gives
      the same as sanitizing the text. */
  lemma {:induction false} SanitizeRemovesUnsafe(url: string)
    ensures Sanitize(RemoveUnsafe(url)) == Sanitize(url)
  {
    if url != "" {
      var c := url[0];
      var rest := url[1..];
      SanitizeRemovesUnsafe(rest);
      if IsUnsafeUrlChar(c) {
        assert RemoveUnsafe(url) == RemoveUnsafe(rest);
        assert LStripC0(url) == LStripC0(rest);
      } else if IsC0OrSpace(c) {
        var r := RemoveUnsafe(url);
        assert r == [c] + RemoveUnsafe(rest);
        assert r[1..] == RemoveUnsafe(rest);
        assert LStripC0(r) == LStripC0(RemoveUnsafe(rest));
        assert LStripC0(url) == LStripC0(rest);
      } else {
        var r := RemoveUnsafe(url);
        assert r[0] == c;
        assert LStripC0(r) == r && LStripC0(url) == url;
        RemoveUnsafeClean(r);
      }
    }
  }

  /** A host with an unmatched bracket makes `urlparse` raise, and the URL
      counts as not valid instead of the error escaping. */
  lemma BracketHostInvalid(scheme: string, host: string, tail: string)
    requires scheme == "http" || scheme == "https"
    requires forall k :: 0 <= k < |host| ==> !IsNetlocDelimiter(host[k])
    requires tail == "" || IsNetlocDelimiter(tail[0])
    requires ('[' in host) != (']' in host)
    ensures UrlParse(scheme + "://" + host + tail).None?
    ensures !IsValidUrl(scheme + "://" + host + tail)
  {
    ParseWebUrl(scheme, host, tail);
  }

  /** Any other scheme is rejected. */
  lemma OtherSchemeInvalid(url: string)
    requires UrlParse(url).Some? && UrlParse(url).value.scheme != "http" && UrlParse(url).value.scheme != "https"
    ensures !IsValidUrl(url)
  {
  }

  // ---------------------------------------------------------------------
  // De-duplication and filtering.

  /** The first occurrence of each element that `keep` accepts, in order.
      The URL filter below is this with `keep` = `IsValidUrl`; its order and
      completeness do not depend on what `keep` tests. */
  function FirstKept(xs: seq<string>, keep: string -> bool): (r: seq<string>)
    ensures forall k :: 0 <= k < |r| ==> r[k] in xs
  {
    if xs == [] then []
    else
      var p := FirstKept(xs[..|xs| - 1], keep);
      var x := xs[|xs| - 1];
      if x !in p && keep(x) then p + [x] else p
  }

  /** The first occurrences of the valid candidates, in candidate order:
      the list the `seen` loop builds. */
  function FirstValid(xs: seq<string>): (r: seq<string>)
    ensures forall k :: 0 <= k < |r| ==> r[k] in xs
  {
    FirstKept(xs, IsValidUrl)
  }

  lemma {:induction false} FirstKeptSound(xs: seq<string>, keep: string -> bool)
    ensures Distinct(FirstKept(xs, keep))
    ensures forall k :: 0 <= k < |FirstKept(xs, keep)| ==> keep(FirstKept(xs, keep)[k])
  {
    if xs != [] {
      FirstKeptSound(xs[..|xs| - 1], keep);
    }
  }

  /** The kept URLs are valid and free of repeats. */
  lemma FirstValidSound(xs: seq<string>)
    ensures Distinct(FirstValid(xs))
    ensures forall k :: 0 <= k < |FirstValid(xs)| ==> IsValidUrl(FirstValid(xs)[k])
  {
    FirstKeptSound(xs, IsValidUrl);
  }

  lemma {:induction false} FirstKeptComplete(xs: seq<string>, keep: string -> bool, x: string)
    requires x in xs && keep(x)
    ensures x in FirstKept(xs, keep)
  {
    var init := xs[..|xs| - 1];
    if x != xs[|xs| - 1] {
      assert x in init;
      FirstKeptComplete(init, keep, x);
    }
  }

  /** Every valid candidate is kept (once). */
  lemma FirstValidComplete(xs: seq<string>, x: string)
    requires x in xs && IsValidUrl(x)
    ensures x in FirstValid(xs)
  {
    FirstKeptComplete(xs, IsValidUrl, x);
  }

  lemma {:induction false} FirstKeptOrder(xs: seq<string>, keep: string -> bool, i: nat, j: nat, a: int, b: int)
    requires i < j < |FirstKept(xs, keep)|
    requires IsFirstAt(xs, FirstKept(xs, keep)[i], a) && IsFirstAt(xs, FirstKept(xs, keep)[j], b)
    ensures a < b
  {
    var n := |xs|;
    var init := xs[..n - 1];
    var x := xs[n - 1];
    var p := FirstKept(init, keep);
    var out := FirstKept(xs, keep);
    assert out[i] == p[i];
    if j < |p| {
      assert out[j] == p[j];
      FirstAtInit(xs, out[i], a);
      FirstAtInit(xs, out[j], b);
      FirstKeptOrder(init, keep, i, j, a, b);
    } else {
      assert out[j] == x && x !in p && keep(x);
      assert x !in init by {
        if x in init {
          FirstKeptComplete(init, keep, x);
        }
      }
      assert p[i] in init;
      FirstBeforeLast(xs, p[i], a, b);
    }
  }

  /** Kept URLs appear in the order of their first occurrence among the
      candidates. */
  lemma FirstValidOrder(xs: seq<string>, i: nat, j: nat, a: int, b: int)
    requires i < j < |FirstValid(xs)|
    requires IsFirstAt(xs, FirstValid(xs)[i], a) && IsFirstAt(xs, FirstValid(xs)[j], b)
    ensures a < b
  {
    FirstKeptOrder(xs, IsValidUrl, i, j, a, b);
  }

  /** `extract_google_urls`: the selector loop collecting candidates, then
      the loop keeping first occurrences of valid ones. */
  method ExtractGoogleUrls(hrefs: seq<string>) returns (unique: seq<string>)
    ensures unique == FirstValid(Candidates(hrefs))
    ensures Distinct(unique)
    ensures forall k :: 0 <= k < |unique| ==> IsValidUrl(unique[k])
  {
    var urls := CollectCandidates(hrefs);
    unique := KeepFirst(urls, IsValidUrl);
    FirstValidSound(urls);
  }

  /** The selector loop: each href resolved, unresolvable ones skipped. */
  method CollectCandidates(hrefs: seq<string>) returns (urls: seq<string>)
    ensures urls == Candidates(hrefs)
  {
    urls := [];
    var i := 0;
    while i < |hrefs|
      invariant 0 <= i <= |hrefs|
      invariant urls == Candidates(hrefs[..i])
    {
      assert hrefs[..i + 1][..i] == hrefs[..i];
      var r := ResolveHref(hrefs[i]);
      if r.Some? {
        urls := urls + [r.value];
      }
      i := i + 1;
    }
    assert hrefs[..i] == hrefs;
  }

  /** The `seen` loop: the first occurrence of each URL that `keep`
      accepts, in order; `extract_google_urls` runs it with `is_valid_url`. */
  method KeepFirst(urls: seq<string>, keep: string -> bool) returns (unique: seq<string>)
    ensures unique == FirstKept(urls, keep)
  {
    unique := [];
    var seen: set<string> := {};
    var j := 0;
    while j < |urls|
      invariant 0 <= j <= |urls|
      invariant unique == FirstKept(urls[..j], keep)
      invariant seen == ElementsOf(unique)
    {
      var url := urls[j];
      assert urls[..j + 1][..j] == urls[..j];
      if url !in seen && keep(url) {
        unique := unique + [url];
        seen := seen + {url};
      }
      j := j + 1;
    }
    assert urls[..j] == urls;
  }
}
