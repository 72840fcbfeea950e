/**
 * `normalize_url` (tools/unifero.py) and the parts of `urllib.parse` it depends on.
 *
 * `urlsplit`'s scheme, network location and query, and `parse_qs`'s first value
 * for a key, are written out, with `urlsplit` first dropping leading characters up
 * to U+0020 and deleting every tab, CR and LF. Percent-decoding
 * (`unquote`, which also decodes UTF-8) and reference resolution (`urljoin`) are
 * left abstract: they are the two functions of a `UrlLib` value that every
 * operation takes as a parameter, so every property below holds whatever they do.
 */
module Urls {
  import opened Wrappers
  import opened Text

  datatype UrlLib = UrlLib(unquote: string -> string, join: (string, string) -> string)

  predicate IsAsciiLetter(c: char) {
    ('a' <= c <= 'z') || ('A' <= c <= 'Z')
  }

  /** The characters `urlsplit` accepts in a scheme. */
  predicate IsSchemeChar(c: char) {
    IsAsciiLetter(c) || ('0' <= c <= '9') || c == '+' || c == '-' || c == '.'
  }

  /** Tab, carriage return and line feed, which `urlsplit` deletes wherever they occur. */
  predicate IsUnsafe(c: char) {
    c == '\t' || c == '\r' || c == '\n'
  }

  /** Drops the leading C0 control characters and spaces (code points up to 32). */
  function LStripC0(s: string): (r: string)
    ensures |r| <= |s| && r == s[|s| - |r|..]
    ensures r == [] || r[0] as int > 32
    decreases |s|
  {
    if s != [] && s[0] as int <= 32 then LStripC0(s[1..]) else s
  }

  function DropUnsafe(s: string): string
    decreases |s|
  {
    if s == [] then []
    else (if IsUnsafe(s[0]) then [] else [s[0]]) + DropUnsafe(s[1..])
  }

  /** What `urlsplit` actually parses. */
  function Sanitize(url: string): string {
    DropUnsafe(LStripC0(url))
  }

  /** The scheme (lower-cased) and the rest, or `""` and the whole URL when there is no scheme. */
  function SplitScheme(url: string): (string, string) {
    var i := Find(url, ':');
    if 0 < i < |url| && IsAsciiLetter(url[0]) && forall k :: 0 <= k < i ==> IsSchemeChar(url[k])
    then (ToLower(url[..i]), url[i + 1..])
    else ("", url)
  }

  /** The index of the first `/`, `?` or `#`, or `|s|`: where a network location ends. */
  function NetlocEnd(s: string): (k: nat)
    ensures k <= |s|
    ensures forall i :: 0 <= i < k ==> s[i] != '/' && s[i] != '?' && s[i] != '#'
    ensures k < |s| ==> s[k] == '/' || s[k] == '?' || s[k] == '#'
    decreases |s|
  {
    if s == [] || s[0] == '/' || s[0] == '?' || s[0] == '#' then 0
    else 1 + NetlocEnd(s[1..])
  }

  /** After the scheme: the network location (after a leading `//`, up to the first `/`, `?` or `#`)
      and what follows it. */
  function SplitNetloc(rest: string): (string, string) {
    if StartsWith(rest, "//") then
      var k := NetlocEnd(rest[2..]);
      (rest[2..][..k], rest[2..][k..])
    else ("", rest)
  }

  /** After the network location: the text after the first `?` and up to the first `#`. */
  function QueryOf(tail: string): string {
    var beforeFragment := tail[..Find(tail, '#')];
    var q := Find(beforeFragment, '?');
    if q < |beforeFragment| then beforeFragment[q + 1..] else ""
  }

  datatype UrlParts = UrlParts(scheme: string, netloc: string, query: string)

  /** `urlsplit(url)`'s scheme, netloc and query. */
  function UrlSplit(url: string): UrlParts {
    var (scheme, rest) := SplitScheme(Sanitize(url));
    var (netloc, tail) := SplitNetloc(rest);
    UrlParts(scheme, netloc, QueryOf(tail))
  }

  /** `urlparse(url).netloc`. */
  function Netloc(url: string): string {
    UrlSplit(url).netloc
  }

  /**
   * `parse_qs(query).get(key)[0]` over the `&`-separated fields of a query:
   * the first field with an `=`, a non-empty value and a name that decodes to
   * `key`; `+` stands for a space in both name and value.
   */
  function QueryValue(fields: seq<string>, key: string, lib: UrlLib): Option<string>
    decreases |fields|
  {
    if fields == [] then None
    else
      var f := fields[0];
      var i := Find(f, '=');
      if i + 1 < |f| && lib.unquote(ReplaceAll(f[..i], "+", " ")) == key
      then Some(lib.unquote(ReplaceAll(f[i + 1..], "+", " ")))
      else QueryValue(fields[1..], key, lib)
  }

  /** The target of a DuckDuckGo redirect wrapper such as `/l/?uddg=<url>`, if `href` is one. */
  function UnwrapTarget(href: string, lib: UrlLib): Option<string> {
    var query := UrlSplit(href).query;
    if query != "" && Contains(query, "uddg=") then QueryValue(SplitOn(query, '&'), "uddg", lib)
    else None
  }

  predicate IsIgnored(href: string) {
    StartsWith(href, "javascript:") || StartsWith(href, "#")
  }

  predicate IsWebScheme(scheme: string) {
    scheme == "http" || scheme == "https"
  }

  /**
   * `normalize_url(href, base)`: `None` for an empty href, for `javascript:`
   * and `#` links and for a relative link without a base; the redirect target
   * for a DuckDuckGo wrapper; `https:` prepended to a protocol-relative link;
   * an http(s) link unchanged; otherwise the link resolved against the base.
   */
  function NormalizeUrl(href: string, base: Option<string>, lib: UrlLib): Option<string> {
    if href == "" then None else NormalizeStripped(Strip(href), base, lib)
  }

  /** `normalize_url` after `href.strip()`. */
  function NormalizeStripped(h: string, base: Option<string>, lib: UrlLib): Option<string> {
    if IsIgnored(h) then None
    else
      var target := UnwrapTarget(h, lib);
      if target.Some? then target
      else if StartsWith(h, "//") then Some("https:" + h)
      else if IsWebScheme(UrlSplit(h).scheme) then Some(h)
      else if Truthy(base) then Some(lib.join(base.value, h))
      else None
  }

  /** The three ways to get `None`: an empty href, an ignored link, or a relative link without a base
      (a link that is not a redirect wrapper, not protocol-relative and not http(s)). */
  lemma NormalizeNone(href: string, base: Option<string>, lib: UrlLib)
    ensures NormalizeUrl(href, base, lib) == None <==>
      href == "" || IsIgnored(Strip(href))
      || (UnwrapTarget(Strip(href), lib) == None && !StartsWith(Strip(href), "//")
          && !IsWebScheme(UrlSplit(Strip(href)).scheme) && !Truthy(base))
  {
  }

  /** A redirect wrapper is unwrapped before any other case, whatever the base: once the
      stripped link is neither empty nor ignored, its `uddg` target is the result. */
  lemma NormalizeUnwrapsFirst(href: string, base: Option<string>, lib: UrlLib)
    requires href != "" && !IsIgnored(Strip(href)) && UnwrapTarget(Strip(href), lib).Some?
    ensures NormalizeUrl(href, base, lib) == UnwrapTarget(Strip(href), lib)
  {
  }

  lemma NotInSlice(s: string, c: char, i: nat, j: nat)
    requires c !in s && i <= j <= |s|
    ensures c !in s[i..j]
  {
    forall k | 0 <= k < j - i ensures s[i..j][k] != c {
      assert s[i..j][k] == s[i + k];
    }
  }

  lemma {:induction false} DropUnsafeAbsent(s: string, c: char)
    requires c !in s
    ensures c !in DropUnsafe(s)
    decreases |s|
  {
    if s != [] {
      NotInSlice(s, c, 1, |s|);
      DropUnsafeAbsent(s[1..], c);
    }
  }

  lemma SchemeRestAbsent(url: string, c: char)
    requires c !in url
    ensures c !in SplitScheme(url).1
  {
    var i := Find(url, ':');
    if 0 < i < |url| {
      NotInSlice(url, c, i + 1, |url|);
    }
  }

  lemma NetlocTailAbsent(rest: string, c: char)
    requires c !in rest
    ensures c !in SplitNetloc(rest).1
  {
    if StartsWith(rest, "//") {
      NotInSlice(rest, c, 2, |rest|);
      var r2 := rest[2..];
      NotInSlice(r2, c, NetlocEnd(r2), |r2|);
    }
  }

  lemma QueryOfNoMark(tail: string)
    requires '?' !in tail
    ensures QueryOf(tail) == ""
  {
    NotInSlice(tail, '?', 0, Find(tail, '#'));
  }

  /** A URL without `?` has an empty query. */
  lemma NoMarkNoQuery(url: string)
    requires '?' !in url
    ensures UrlSplit(url).query == ""
  {
    var l := LStripC0(url);
    NotInSlice(url, '?', |url| - |l|, |url|);
    DropUnsafeAbsent(l, '?');
    var clean := Sanitize(url);
    SchemeRestAbsent(clean, '?');
    var rest := SplitScheme(clean).1;
    NetlocTailAbsent(rest, '?');
    QueryOfNoMark(SplitNetloc(rest).1);
  }

  /** A link without a query is never taken for a redirect wrapper. */
  lemma NoQueryNoUnwrap(href: string, lib: UrlLib)
    requires '?' !in href
    ensures UnwrapTarget(href, lib) == None
  {
    NoMarkNoQuery(href);
  }

  lemma NotIgnored(h: string)
    requires h != [] && h[0] != 'j' && h[0] != '#'
    ensures !IsIgnored(h)
  {
    if |h| >= 11 { assert h[..11][0] == h[0]; }
    assert h[..1][0] == h[0];
  }

  /** A protocol-relative link `//host/path` that is not a redirect wrapper becomes `https://host/path`,
      whatever its query. */
  lemma NormalizeProtocolRelative(href: string, base: Option<string>, lib: UrlLib)
    requires StartsWith(Strip(href), "//") && UnwrapTarget(Strip(href), lib) == None
    ensures NormalizeUrl(href, base, lib) == Some("https:" + Strip(href))
  {
    var h := Strip(href);
    assert h[0] == h[..2][0] == '/';
    NotIgnored(h);
  }

  /** In particular a protocol-relative link without `?` becomes `https://host/path`. */
  lemma NormalizeProtocolRelativeNoQuery(href: string, base: Option<string>, lib: UrlLib)
    requires '?' !in href && StartsWith(Strip(href), "//")
    ensures NormalizeUrl(href, base, lib) == Some("https:" + Strip(href))
  {
    StripAbsent(href, '?');
    NoQueryNoUnwrap(Strip(href), lib);
    NormalizeProtocolRelative(href, base, lib);
  }

  lemma {:induction false} DropUnsafePrefix(p: string, s: string)
    requires forall k :: 0 <= k < |p| ==> !IsUnsafe(p[k])
    ensures DropUnsafe(p + s) == p + DropUnsafe(s)
    decreases |p|
  {
    if p != [] {
      assert !IsUnsafe(p[0]);
      assert (p + s)[0] == p[0];
      assert (p + s)[1..] == p[1..] + s;
      DropUnsafePrefix(p[1..], s);
      calc {
        DropUnsafe(p + s);
        [p[0]] + DropUnsafe(p[1..] + s);
        [p[0]] + (p[1..] + DropUnsafe(s));
        { assert p == [p[0]] + p[1..]; }
        p + DropUnsafe(s);
      }
    } else {
      assert p + s == s;
    }
  }

  /** A string that starts with `http:` or `https:` has that scheme. */
  lemma SchemeOf(clean: string, scheme: string)
    requires scheme == "http" || scheme == "https"
    requires StartsWith(clean, scheme + ":")
    ensures SplitScheme(clean).0 == scheme
  {
    var n := |scheme|;
    assert clean[n] == (scheme + ":")[n] == ':';
    assert clean[..n + 1] == scheme + ":";
    forall k | 0 <= k < n ensures clean[k] == scheme[k] {
      assert clean[k] == clean[..n + 1][k] == (scheme + ":")[k];
    }
    assert clean[..n] == scheme;
    FindAt(clean, ':', n);
    forall k | 0 <= k < n ensures IsSchemeChar(clean[k]) {
      assert clean[k] == scheme[k];
    }
    assert ToLower(scheme) == scheme;
  }

  /** A URL that starts with `http:` or `https:` has that scheme. */
  lemma WebSchemeOf(url: string, scheme: string)
    requires scheme == "http" || scheme == "https"
    requires StartsWith(url, scheme + ":")
    ensures UrlSplit(url).scheme == scheme
  {
    var n := |scheme|;
    var p := url[..n + 1];
    assert p == scheme + ":";
    assert url == p + url[n + 1..];
    forall k | 0 <= k < |p| ensures !IsUnsafe(p[k]) {
      assert p[k] == (scheme + ":")[k];
    }
    DropUnsafePrefix(p, url[n + 1..]);
    assert url[0] == 'h';
    assert LStripC0(url) == url;
    var clean := Sanitize(url);
    assert clean == p + DropUnsafe(url[n + 1..]);
    assert clean[..n + 1] == p;
    SchemeOf(clean, scheme);
  }

  lemma WebLinkScheme(h: string)
    requires StartsWith(h, "http:") || StartsWith(h, "https:")
    ensures IsWebScheme(UrlSplit(h).scheme)
  {
    if StartsWith(h, "http:") {
      WebSchemeOf(h, "http");
    } else {
      WebSchemeOf(h, "https");
    }
  }

  lemma WebLinkPlain(h: string)
    requires StartsWith(h, "http:") || StartsWith(h, "https:")
    ensures !StartsWith(h, "//") && !IsIgnored(h)
  {
    assert h[0] == h[..5][0] == 'h';
    NotIgnored(h);
    assert h[..2][0] == 'h';
  }

  lemma StrippedWebLink(h: string, base: Option<string>, lib: UrlLib)
    requires UnwrapTarget(h, lib) == None && !StartsWith(h, "//") && !IsIgnored(h)
    requires IsWebScheme(UrlSplit(h).scheme)
    ensures NormalizeStripped(h, base, lib) == Some(h)
  {
  }

  /** An `http:` or `https:` link that is not a redirect wrapper passes through unchanged, whatever
      its query (ignoring surrounding whitespace). */
  lemma NormalizeWebLink(href: string, base: Option<string>, lib: UrlLib)
    requires StartsWith(Strip(href), "http:") || StartsWith(Strip(href), "https:")
    requires UnwrapTarget(Strip(href), lib) == None
    ensures NormalizeUrl(href, base, lib) == Some(Strip(href))
  {
    var h := Strip(href);
    WebLinkPlain(h);
    WebLinkScheme(h);
    StrippedWebLink(h, base, lib);
  }

  /** In particular an `http:` or `https:` link without `?` passes through unchanged. */
  lemma NormalizeWebLinkNoQuery(href: string, base: Option<string>, lib: UrlLib)
    requires '?' !in href
    requires StartsWith(Strip(href), "http:") || StartsWith(Strip(href), "https:")
    ensures NormalizeUrl(href, base, lib) == Some(Strip(href))
  {
    StripAbsent(href, '?');
    NoQueryNoUnwrap(Strip(href), lib);
    NormalizeWebLink(href, base, lib);
  }
}
