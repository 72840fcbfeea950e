/**
 * `extract_doc_content_html` (tools/unifero.py): a page's paragraphs assembled
 * into one text, with short capitalised paragraphs promoted to `##` headings,
 * the paragraphs joined by blank lines, runs of three or more newlines collapsed
 * to two, the result stripped and, when a length is given, cut to that prefix.
 */
module Content {
  import opened Wrappers
  import opened Text
  import opened Html
  import opened Urls
  import opened Extract

  // ---------------------------------------------------------------- headings

  /** The characters of the class `[A-Za-z0-9\-\s]`. */
  predicate IsHeadingChar(c: char) {
    IsAsciiLetter(c) || ('0' <= c <= '9') || c == '-' || IsSpace(c)
  }

  /** `re.match(r"^[A-Z][A-Za-z0-9\-\s]{2,}$", p)`: an upper-case ASCII letter followed by at
      least two letters, digits, hyphens or whitespace, and nothing else. (`$` may also match
      before a final newline, which the class already admits, so this is the same condition.) */
  predicate MatchesHeadingPattern(p: string) {
    |p| >= 3 && 'A' <= p[0] <= 'Z' && forall i :: 1 <= i < |p| ==> IsHeadingChar(p[i])
  }

  /** A paragraph that is promoted to a heading: it matches the pattern and has at most six words. */
  predicate IsHeading(p: string) {
    MatchesHeadingPattern(p) && WordCount(p) <= 6
  }

  /** One entry of `content_lines`. */
  function ContentLine(p: string): string {
    if IsHeading(p) then "\n## " + p + "\n" else p
  }

  /** A paragraph is rewritten exactly when it is a heading, and then it is wrapped as `\n## p\n`. */
  lemma ContentLinePromotes(p: string)
    ensures ContentLine(p) != p <==> IsHeading(p)
    ensures IsHeading(p) ==> ContentLine(p) == "\n## " + p + "\n"
  {
    if IsHeading(p) {
      assert |ContentLine(p)| == |p| + 5;
    }
  }

  function ContentLines(ps: seq<string>): (r: seq<string>)
    ensures |r| == |ps|
    ensures forall i :: 0 <= i < |ps| ==> r[i] == ContentLine(ps[i])
    decreases |ps|
  {
    if ps == [] then [] else [ContentLine(ps[0])] + ContentLines(ps[1..])
  }

  // ---------------------------------------------------------------- newline runs

  /** The length of the leading run of newlines. */
  function NewlineRun(s: string): (k: nat)
    ensures k <= |s|
    ensures forall i :: 0 <= i < k ==> s[i] == '\n'
    ensures k < |s| ==> s[k] != '\n'
    decreases |s|
  {
    if s != [] && s[0] == '\n' then 1 + NewlineRun(s[1..]) else 0
  }

  /** `re.sub(r"\n{3,}", "\n\n", s)`: every run of three or more newlines becomes two. */
  function Collapse(s: string): (r: string)
    ensures s == [] <==> r == []
    ensures s != [] && s[0] != '\n' ==> r[0] == s[0]
    decreases |s|
  {
    if s == [] then []
    else if s[0] != '\n' then [s[0]] + Collapse(s[1..])
    else
      var k := NewlineRun(s);
      (if k >= 3 then "\n\n" else s[..k]) + Collapse(s[k..])
  }

  /** No three consecutive newlines. */
  predicate NoTriple(s: string) {
    forall i :: 0 <= i < |s| - 2 ==> !(s[i] == '\n' && s[i + 1] == '\n' && s[i + 2] == '\n')
  }

  lemma NoTripleSlice(s: string, i: nat, j: nat)
    requires NoTriple(s) && i <= j <= |s|
    ensures NoTriple(s[i..j])
  {
    var t := s[i..j];
    forall k | 0 <= k < |t| - 2 ensures !(t[k] == '\n' && t[k + 1] == '\n' && t[k + 2] == '\n') {
      assert t[k] == s[i + k] && t[k + 1] == s[i + k + 1] && t[k + 2] == s[i + k + 2];
    }
  }

  /** A block of at most two newlines in front of a text without triples that does not start with a newline. */
  lemma NoTripleAfterShortRun(block: string, rest: string)
    requires |block| <= 2 && NoTriple(rest) && (rest == [] || rest[0] != '\n')
    ensures NoTriple(block + rest)
  {
    var t := block + rest;
    forall k | 0 <= k < |t| - 2 ensures !(t[k] == '\n' && t[k + 1] == '\n' && t[k + 2] == '\n') {
      if k >= |block| {
        assert t[k] == rest[k - |block|] && t[k + 1] == rest[k - |block| + 1] && t[k + 2] == rest[k - |block| + 2];
      } else {
        assert t[|block|] == rest[0];
      }
    }
  }

  /** After collapsing there are never three consecutive newlines. */
  lemma {:induction false} CollapseNoTriple(s: string)
    ensures NoTriple(Collapse(s))
    decreases |s|
  {
    if s != [] {
      if s[0] != '\n' {
        CollapseNoTriple(s[1..]);
        var rest := Collapse(s[1..]);
        assert Collapse(s) == [s[0]] + rest;
        NoTripleAfterShortRun([], [s[0]] + rest);
        var t := [s[0]] + rest;
        forall k | 0 <= k < |t| - 2 ensures !(t[k] == '\n' && t[k + 1] == '\n' && t[k + 2] == '\n') {
          if k > 0 {
            assert t[k] == rest[k - 1] && t[k + 1] == rest[k] && t[k + 2] == rest[k + 1];
          }
        }
      } else {
        var k := NewlineRun(s);
        CollapseNoTriple(s[k..]);
        var block := if k >= 3 then "\n\n" else s[..k];
        var rest := Collapse(s[k..]);
        assert Collapse(s) == block + rest;
        NoTripleAfterShortRun(block, rest);
      }
    }
  }

  /** Collapsing changes nothing in a text without three consecutive newlines. */
  lemma {:induction false} CollapseFixes(s: string)
    requires NoTriple(s)
    ensures Collapse(s) == s
    decreases |s|
  {
    if s != [] {
      if s[0] != '\n' {
        NoTripleSlice(s, 1, |s|);
        CollapseFixes(s[1..]);
        assert s == [s[0]] + s[1..];
      } else {
        var k := NewlineRun(s);
        assert |s| >= 3 ==> !(s[0] == '\n' && s[1] == '\n' && s[2] == '\n');
        assert k < 3;
        NoTripleSlice(s, k, |s|);
        CollapseFixes(s[k..]);
        assert s == s[..k] + s[k..];
      }
    }
  }

  /** Collapsing twice is collapsing once. */
  lemma CollapseIdempotent(s: string)
    ensures Collapse(Collapse(s)) == Collapse(s)
  {
    CollapseNoTriple(s);
    CollapseFixes(Collapse(s));
  }

  lemma StripNoTriple(s: string)
    requires NoTriple(s)
    ensures NoTriple(Strip(s))
  {
    var l := LStrip(s);
    NoTripleSlice(s, |s| - |l|, |s|);
    NoTripleSlice(l, 0, |RStrip(l)|);
  }

  // ---------------------------------------------------------------- assembly

  /** The text before truncation: lines joined by blank lines, newline runs collapsed, stripped. */
  function FullText(paragraphs: seq<string>): string {
    Strip(Collapse(Join("\n\n", ContentLines(paragraphs))))
  }

  /** The `content` field: the full text, cut to `text[:length]` when a length is given. */
  function ContentOf(paragraphs: seq<string>, length: Option<int>): string {
    var text := FullText(paragraphs);
    if length.None? then text else Prefix(text, length.value)
  }

  /** The content is a prefix of the full text, never has three consecutive newlines, and is no
      longer than a non-negative `length`; without a length it is the whole stripped text. */
  lemma ContentBounds(paragraphs: seq<string>, length: Option<int>)
    ensures ContentOf(paragraphs, length) <= FullText(paragraphs)
    ensures NoTriple(ContentOf(paragraphs, length))
    ensures length.Some? && length.value >= 0 ==> |ContentOf(paragraphs, length)| <= length.value
    ensures length.None? ==> ContentOf(paragraphs, length) == FullText(paragraphs)
  {
    var joined := Join("\n\n", ContentLines(paragraphs));
    CollapseNoTriple(joined);
    StripNoTriple(Collapse(joined));
    CutNoTriple(FullText(paragraphs), length);
  }

  /** Cutting a text without newline triples keeps it without them. */
  lemma CutNoTriple(text: string, length: Option<int>)
    requires NoTriple(text)
    ensures NoTriple(if length.None? then text else Prefix(text, length.value))
  {
    if length.Some? {
      var r := Prefix(text, length.value);
      assert r == text[..|r|];
      NoTripleSlice(text, 0, |r|);
    }
  }

  /** A single paragraph that is not a heading, has no surrounding whitespace and no three
      consecutive newlines is the content unchanged. */
  lemma SingleParagraphContent(p: string)
    requires !IsHeading(p) && NoTriple(p)
    requires p == [] || (!IsSpace(p[0]) && !IsSpace(p[|p| - 1]))
    ensures FullText([p]) == p
  {
    assert ContentLines([p]) == [p];
    assert Join("\n\n", [p]) == p;
    CollapseFixes(p);
  }

  /** What `extract_doc_content_html` returns for a page that was fetched. */
  datatype Extracted = Extracted(title: string, paragraphs: seq<string>, content: string,
                                 favicon: Option<string>, previewImage: Option<string>)

  /** `safe_get`: a response only when the request did not raise and the status is 200. */
  predicate Fetchable(web: Web, url: string) {
    url in web && web[url].status == 200
  }

  /** `extract_doc_content_html(url, length)` against the responses `web`. */
  function DocContentOf(web: Web, url: string, length: Option<int>, lib: UrlLib): Option<Extracted> {
    if !Fetchable(web, url) then None
    else
      var page := PageOf(web[url], lib);
      Some(Extracted(if page.title.Some? then page.title.value else "", page.paragraphs,
                     ContentOf(page.paragraphs, length), page.favicon, page.previewImage))
  }

  /** Extraction fails exactly when the page cannot be fetched with status 200; otherwise the
      paragraphs are the page's and the content is assembled from them. */
  lemma DocContentSucceeds(web: Web, url: string, length: Option<int>, lib: UrlLib)
    ensures DocContentOf(web, url, length, lib).Some? <==> Fetchable(web, url)
    ensures DocContentOf(web, url, length, lib).Some? ==>
      var e := DocContentOf(web, url, length, lib).value;
      e.paragraphs == Paragraphs(web[url].body.elements) && e.content == ContentOf(e.paragraphs, length)
      && (length.Some? && length.value >= 0 ==> |e.content| <= length.value) && NoTriple(e.content)
  {
    if Fetchable(web, url) {
      ContentBounds(PageOf(web[url], lib).paragraphs, length);
    }
  }

  /** The loop of `extract_doc_content_html` that builds `content_lines`. */
  method BuildContentLines(paragraphs: seq<string>) returns (lines: seq<string>)
    ensures lines == ContentLines(paragraphs)
  {
    lines := [];
    for i := 0 to |paragraphs|
      invariant |lines| == i
      invariant forall k :: 0 <= k < i ==> lines[k] == ContentLine(paragraphs[k])
    {
      var p := paragraphs[i];
      if MatchesHeadingPattern(p) && WordCount(p) <= 6 {
        lines := lines + ["\n## " + p + "\n"];
      } else {
        lines := lines + [p];
      }
    }
  }

  /** The assembly of `content` from the paragraphs: promote headings, join, collapse, strip, cut. */
  method AssembleContent(paragraphs: seq<string>, length: Option<int>) returns (content: string)
    ensures content == ContentOf(paragraphs, length)
  {
    var lines := BuildContentLines(paragraphs);
    var text := Strip(Collapse(Join("\n\n", lines)));
    content := if length.None? then text else Prefix(text, length.value);
  }

  method ExtractDocContent(web: Web, url: string, length: Option<int>, lib: UrlLib) returns (r: Option<Extracted>)
    ensures r == DocContentOf(web, url, length, lib)
  {
    if url !in web || web[url].status != 200 {
      return None;
    }
    var page := ExtractPage(web[url], lib);
    var content := AssembleContent(page.paragraphs, length);
    var title := if page.title.Some? then page.title.value else "";
    r := Some(Extracted(title, page.paragraphs, content, page.favicon, page.previewImage));
  }
}
