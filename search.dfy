/**
 * `duckduckgo_search` and `deep_search` (tools/unifero.py).
 *
 * The result page's anchors are read in two passes: first the anchors with
 * class `result__a` or `result-link`, then every anchor with an `href`. Each
 * pass appends the normalised href when it is truthy and new; the first pass
 * returns as soon as the limit is reached after an append attempt, the second
 * checks the limit before each anchor. The list is then cut to `links[:limit]`.
 */
module Search {
  import opened Wrappers
  import opened Text
  import opened Html
  import opened Urls
  import opened Content

  /** The DuckDuckGo HTML endpoint for a query, spaces replaced by `+`. */
  function SearchUrl(query: string): string {
    "https://duckduckgo.com/html/?q=" + ReplaceAll(query, " ", "+")
  }

  /** The anchors `soup.select("a.result__a, a.result-link")` selects. */
  predicate IsResultAnchor(a: Anchor) {
    "result__a" in a.classes || "result-link" in a.classes
  }

  /** `normalize_url(a.get("href"))`, without a base; a missing `href` gives `None`. */
  function AnchorTarget(a: Anchor, lib: UrlLib): Option<string> {
    if a.href.None? then None else NormalizeUrl(a.href.value, None, lib)
  }

  /** The normalised hrefs the first pass looks at, in document order. */
  function ResultTargets(anchors: seq<Anchor>, lib: UrlLib): seq<Option<string>>
    decreases |anchors|
  {
    if anchors == [] then []
    else (if IsResultAnchor(anchors[0]) then [AnchorTarget(anchors[0], lib)] else [])
         + ResultTargets(anchors[1..], lib)
  }

  /** The normalised hrefs the second pass looks at: those of the anchors that have an `href`. */
  function HrefTargets(anchors: seq<Anchor>, lib: UrlLib): seq<Option<string>>
    decreases |anchors|
  {
    if anchors == [] then []
    else (if anchors[0].href.Some? then [AnchorTarget(anchors[0], lib)] else [])
         + HrefTargets(anchors[1..], lib)
  }

  lemma ResultTargetsStep(anchors: seq<Anchor>, i: nat, lib: UrlLib)
    requires i < |anchors|
    ensures ResultTargets(anchors[i..], lib)
         == (if IsResultAnchor(anchors[i]) then [AnchorTarget(anchors[i], lib)] else []) + ResultTargets(anchors[i + 1..], lib)
  {
    assert anchors[i..][1..] == anchors[i + 1..];
  }

  lemma HrefTargetsStep(anchors: seq<Anchor>, i: nat, lib: UrlLib)
    requires i < |anchors|
    ensures HrefTargets(anchors[i..], lib)
         == (if anchors[i].href.Some? then [AnchorTarget(anchors[i], lib)] else []) + HrefTargets(anchors[i + 1..], lib)
  {
    assert anchors[i..][1..] == anchors[i + 1..];
  }

  /** One append attempt: a truthy URL that is not yet in the list is appended. */
  function AddNew(links: seq<string>, f: Option<string>): seq<string> {
    if Truthy(f) && f.value !in links then links + [f.value] else links
  }

  /** The first loop: the links so far and whether it returned early at the limit. */
  function FirstPass(cands: seq<Option<string>>, links: seq<string>, limit: int): (seq<string>, bool)
    decreases |cands|
  {
    if cands == [] then (links, false)
    else
      var next := AddNew(links, cands[0]);
      if |next| >= limit then (next, true) else FirstPass(cands[1..], next, limit)
  }

  /** The second loop, which stops before an anchor once the limit is reached. */
  function SecondPass(cands: seq<Option<string>>, links: seq<string>, limit: int): seq<string>
    decreases |cands|
  {
    if cands == [] || |links| >= limit then links
    else SecondPass(cands[1..], AddNew(links, cands[0]), limit)
  }

  /** The links `duckduckgo_search` collects from a result page. */
  function CollectLinks(d: Document, limit: int, lib: UrlLib): seq<string> {
    var (first, stopped) := FirstPass(ResultTargets(d.anchors, lib), [], limit);
    if stopped then first else Prefix(SecondPass(HrefTargets(d.anchors, lib), first, limit), limit)
  }

  /** `duckduckgo_search(query, limit)`: no links when the request raises or the status is not 200. */
  function SearchResults(web: Web, query: string, limit: int, lib: UrlLib): seq<string> {
    var url := SearchUrl(query);
    if url in web && web[url].status == 200 then CollectLinks(web[url].body, limit, lib) else []
  }

  // ---------------------------------------------------------------- reference definition

  /** Order-preserving deduplication of the truthy candidates, after `links`. */
  function Dedup(cands: seq<Option<string>>, links: seq<string>): (r: seq<string>)
    ensures |links| <= |r| && r[..|links|] == links
    decreases |cands|
  {
    if cands == [] then links
    else
      var next := AddNew(links, cands[0]);
      assert next[..|links|] == links;
      var r := Dedup(cands[1..], next);
      assert r[..|links|] == r[..|next|][..|links|];
      r
  }

  /** Every link is a truthy candidate. */
  predicate FromCandidates(s: seq<string>, cands: seq<Option<string>>) {
    forall x :: x in s ==> x != "" && Some(x) in cands
  }

  lemma {:induction false} DedupAppend(xs: seq<Option<string>>, ys: seq<Option<string>>, links: seq<string>)
    ensures Dedup(xs + ys, links) == Dedup(ys, Dedup(xs, links))
    decreases |xs|
  {
    if xs == [] {
      assert xs + ys == ys;
    } else {
      assert (xs + ys)[1..] == xs[1..] + ys;
      DedupAppend(xs[1..], ys, AddNew(links, xs[0]));
    }
  }

  /** The deduplicated list stays duplicate-free and holds only truthy candidates beside `links`. */
  lemma {:induction false} DedupProperties(cands: seq<Option<string>>, links: seq<string>)
    requires Distinct(links)
    ensures Distinct(Dedup(cands, links))
    ensures forall x :: x in Dedup(cands, links) ==> x in links || (x != "" && Some(x) in cands)
    decreases |cands|
  {
    if cands != [] {
      var next := AddNew(links, cands[0]);
      DedupProperties(cands[1..], next);
      forall x | x in Dedup(cands, links) ensures x in links || (x != "" && Some(x) in cands) {
        if x !in next {
          assert Some(x) in cands[1..];
        } else if x !in links {
          assert Some(x) == cands[0];
        }
      }
    }
  }

  /** A prefix of a duplicate-free list is duplicate-free. */
  lemma DistinctPrefix(s: seq<string>, t: seq<string>)
    requires Distinct(t) && s <= t
    ensures Distinct(s)
  {
    forall i, j | 0 <= i < j < |s| ensures s[i] != s[j] {
      assert s[i] == t[i] && s[j] == t[j];
    }
  }

  /** Each append attempt grows the list by at most one. */
  lemma {:induction false} FirstPassStops(cands: seq<Option<string>>, links: seq<string>, limit: int, ys: seq<Option<string>>)
    requires |links| < limit
    ensures var (r, stopped) := FirstPass(cands, links, limit);
      if stopped then r == Prefix(Dedup(cands + ys, links), limit) && |r| == limit
      else r == Dedup(cands, links) && |r| < limit
    decreases |cands|
  {
    if cands != [] {
      var next := AddNew(links, cands[0]);
      assert (cands + ys)[1..] == cands[1..] + ys;
      var all := Dedup(cands + ys, links);
      assert all == Dedup(cands[1..] + ys, next);
      if |next| >= limit {
        assert |next| == limit;
        assert all[..|next|] == next;
      } else {
        FirstPassStops(cands[1..], next, limit, ys);
      }
    }
  }

  lemma {:induction false} SecondPassIsPrefix(cands: seq<Option<string>>, links: seq<string>, limit: int)
    requires |links| <= limit
    ensures SecondPass(cands, links, limit) == Prefix(Dedup(cands, links), limit)
    decreases |cands|
  {
    var all := Dedup(cands, links);
    if cands == [] {
      assert all == links;
    } else if |links| >= limit {
      assert all[..|links|] == links;
    } else {
      var next := AddNew(links, cands[0]);
      SecondPassIsPrefix(cands[1..], next, limit);
    }
  }

  /** With a positive limit, the links are the first `limit` distinct truthy normalised hrefs of the
      result-class anchors followed by those of all anchors, in that order. */
  lemma CollectLinksOrder(d: Document, limit: int, lib: UrlLib)
    requires limit >= 1
    ensures CollectLinks(d, limit, lib)
            == Prefix(Dedup(ResultTargets(d.anchors, lib) + HrefTargets(d.anchors, lib), []), limit)
  {
    var xs := ResultTargets(d.anchors, lib);
    var ys := HrefTargets(d.anchors, lib);
    FirstPassStops(xs, [], limit, ys);
    var (first, stopped) := FirstPass(xs, [], limit);
    if !stopped {
      SecondPassIsPrefix(ys, first, limit);
      DedupAppend(xs, ys, []);
      var all := Dedup(ys, first);
      assert Prefix(Prefix(all, limit), limit) == Prefix(all, limit);
    }
  }

  lemma {:induction false} FirstPassSmall(cands: seq<Option<string>>, limit: int)
    requires limit <= 0
    ensures |FirstPass(cands, [], limit).0| <= 1
    ensures !FirstPass(cands, [], limit).1 ==> FirstPass(cands, [], limit).0 == []
  {
  }

  /** The links are duplicate-free and each is a truthy normalised href of an anchor; there are at most
      `limit` of them for a positive limit, and at most one otherwise. */
  lemma CollectLinksProperties(d: Document, limit: int, lib: UrlLib)
    ensures Distinct(CollectLinks(d, limit, lib))
    ensures FromCandidates(CollectLinks(d, limit, lib), ResultTargets(d.anchors, lib) + HrefTargets(d.anchors, lib))
    ensures limit >= 1 ==> |CollectLinks(d, limit, lib)| <= limit
    ensures limit <= 0 ==> |CollectLinks(d, limit, lib)| <= 1
  {
    var cands := ResultTargets(d.anchors, lib) + HrefTargets(d.anchors, lib);
    var r := CollectLinks(d, limit, lib);
    if limit >= 1 {
      CollectLinksOrder(d, limit, lib);
      DedupProperties(cands, []);
      DistinctPrefix(r, Dedup(cands, []));
    } else {
      var xs := ResultTargets(d.anchors, lib);
      FirstPassSmall(xs, limit);
      if xs != [] {
        assert r == AddNew([], xs[0]);
        assert xs[0] in cands;
      } else {
        assert r == Prefix([], limit);
      }
    }
  }

  /** With a limit of 0 or less the first loop still appends the first result link before it
      compares the count with the limit: a page whose only anchor is an http(s) result link that
      is not a redirect wrapper gives that one link back. */
  lemma CollectLinksNonPositiveLimit(d: Document, limit: int, lib: UrlLib)
    requires limit <= 0 && |d.anchors| == 1 && IsResultAnchor(d.anchors[0]) && d.anchors[0].href.Some?
    requires UnwrapTarget(Strip(d.anchors[0].href.value), lib) == None
    requires StartsWith(Strip(d.anchors[0].href.value), "http:") || StartsWith(Strip(d.anchors[0].href.value), "https:")
    ensures CollectLinks(d, limit, lib) == [Strip(d.anchors[0].href.value)]
  {
    var link := Strip(d.anchors[0].href.value);
    SingleResultTarget(d, lib);
    assert AddNew([], Some(link)) == [link];
    assert FirstPass([Some(link)], [], limit) == ([link], true);
  }

  /** The one candidate of a page whose only anchor is an http(s) result link that is not a
      redirect wrapper. */
  lemma SingleResultTarget(d: Document, lib: UrlLib)
    requires |d.anchors| == 1 && IsResultAnchor(d.anchors[0]) && d.anchors[0].href.Some?
    requires UnwrapTarget(Strip(d.anchors[0].href.value), lib) == None
    requires StartsWith(Strip(d.anchors[0].href.value), "http:") || StartsWith(Strip(d.anchors[0].href.value), "https:")
    ensures ResultTargets(d.anchors, lib) == [Some(Strip(d.anchors[0].href.value))]
    ensures Strip(d.anchors[0].href.value) != ""
  {
    var href := d.anchors[0].href.value;
    NormalizeWebLink(href, None, lib);
    ResultTargetsStep(d.anchors, 0, lib);
    assert d.anchors[0..] == d.anchors;
    assert d.anchors[1..] == [];
  }

  /** The first loop of `duckduckgo_search`, over the result-class anchors; `stopped` when it
      returned early because the limit was reached. `seen` holds exactly the links. */
  method FirstLoop(anchors: seq<Anchor>, limit: int, lib: UrlLib)
    returns (links: seq<string>, seen: set<string>, stopped: bool)
    ensures (links, stopped) == FirstPass(ResultTargets(anchors, lib), [], limit)
    ensures forall x :: x in seen <==> x in links
  {
    links := [];
    seen := {};
    ghost var goal := FirstPass(ResultTargets(anchors, lib), [], limit);
    for i := 0 to |anchors|
      invariant forall x :: x in seen <==> x in links
      invariant FirstPass(ResultTargets(anchors[i..], lib), links, limit) == goal
    {
      ResultTargetsStep(anchors, i, lib);
      var a := anchors[i];
      ghost var rest := ResultTargets(anchors[i + 1..], lib);
      if IsResultAnchor(a) {
        var final := AnchorTarget(a, lib);
        ghost var before := links;
        if Truthy(final) && final.value !in seen {
          seen := seen + {final.value};
          links := links + [final.value];
        }
        assert links == AddNew(before, final);
        assert FirstPass([final] + rest, before, limit)
            == if |links| >= limit then (links, true) else FirstPass(rest, links, limit);
        if |links| >= limit {
          return links, seen, true;
        }
      } else {
        assert [] + rest == rest;
      }
    }
    assert anchors[|anchors|..] == [];
    stopped := false;
  }

  /** The second loop of `duckduckgo_search`, over the anchors that have an `href`. */
  method SecondLoop(anchors: seq<Anchor>, first: seq<string>, firstSeen: set<string>, limit: int, lib: UrlLib)
    returns (links: seq<string>)
    requires forall x :: x in firstSeen <==> x in first
    ensures links == SecondPass(HrefTargets(anchors, lib), first, limit)
  {
    links := first;
    var seen := firstSeen;
    ghost var goal := SecondPass(HrefTargets(anchors, lib), first, limit);
    for i := 0 to |anchors|
      invariant forall x :: x in seen <==> x in links
      invariant SecondPass(HrefTargets(anchors[i..], lib), links, limit) == goal
    {
      HrefTargetsStep(anchors, i, lib);
      var a := anchors[i];
      ghost var rest := HrefTargets(anchors[i + 1..], lib);
      if a.href.Some? {
        if |links| >= limit {
          break;
        }
        var final := NormalizeUrl(a.href.value, None, lib);
        assert final == AnchorTarget(a, lib);
        ghost var before := links;
        if Truthy(final) && final.value !in seen {
          seen := seen + {final.value};
          links := links + [final.value];
        }
        assert links == AddNew(before, final);
        assert SecondPass([final] + rest, before, limit) == SecondPass(rest, links, limit);
      } else {
        assert [] + rest == rest;
      }
    }
  }

  /** `duckduckgo_search(query, limit)`. */
  method DuckDuckGoSearch(query: string, limit: int, web: Web, lib: UrlLib) returns (links: seq<string>)
    ensures links == SearchResults(web, query, limit, lib)
  {
    var url := SearchUrl(query);
    if url !in web || web[url].status != 200 {
      return [];
    }
    var anchors := web[url].body.anchors;
    var seen, stopped;
    links, seen, stopped := FirstLoop(anchors, limit, lib);
    if stopped {
      return links;
    }
    links := SecondLoop(anchors, links, seen, limit, lib);
    links := Prefix(links, limit);
  }

  // ---------------------------------------------------------------- deep search

  /** The snippet of an extracted page: the first paragraph cut to `snippet_len`, or, without
      paragraphs, the content, cut and marked with `...` when it is longer than `snippet_len`. */
  function Snippet(paragraphs: seq<string>, content: string, snippetLen: int): string {
    if paragraphs != [] then Prefix(paragraphs[0], snippetLen)
    else if |content| > snippetLen then Prefix(content, snippetLen) + "..."
    else content
  }

  /** A snippet is a prefix of the first paragraph, or of the content with at most `...` added, and
      with a non-negative `snippet_len` it is at most that long, plus three for the mark. Without
      paragraphs the mark is added exactly when the content is longer than `snippet_len`; content that
      fits is the snippet unchanged. */
  lemma SnippetBounds(paragraphs: seq<string>, content: string, snippetLen: int)
    ensures paragraphs != [] ==> Snippet(paragraphs, content, snippetLen) <= paragraphs[0]
    ensures paragraphs != [] && snippetLen >= 0 ==> |Snippet(paragraphs, content, snippetLen)| <= snippetLen
    ensures paragraphs == [] ==>
      Snippet(paragraphs, content, snippetLen) == content
      || Snippet(paragraphs, content, snippetLen) == Prefix(content, snippetLen) + "..."
    ensures paragraphs == [] && snippetLen >= 0 ==> |Snippet(paragraphs, content, snippetLen)| <= snippetLen + 3
    ensures paragraphs == [] && |content| > snippetLen ==>
      Snippet(paragraphs, content, snippetLen) == Prefix(content, snippetLen) + "..."
    ensures paragraphs == [] && |content| <= snippetLen ==> Snippet(paragraphs, content, snippetLen) == content
  {
  }

  /** One entry of `results`. */
  datatype SearchRecord =
    | Unfetched(url: string)
    | Found(url: string, title: string, snippet: string, content: string,
            favicon: Option<string>, previewImage: Option<string>)

  datatype SearchResponse = SearchResponse(query: string, results: seq<SearchRecord>)

  function RecordOf(link: string, extracted: Option<Extracted>, snippetLen: int): SearchRecord {
    if extracted.None? then Unfetched(link)
    else
      var e := extracted.value;
      Found(link, e.title, Snippet(e.paragraphs, e.content, snippetLen), e.content, e.favicon, e.previewImage)
  }

  function Records(links: seq<string>, web: Web, snippetLen: int, contentLen: Option<int>, lib: UrlLib): (r: seq<SearchRecord>)
    ensures |r| == |links|
    decreases |links|
  {
    if links == [] then []
    else [RecordOf(links[0], DocContentOf(web, links[0], contentLen, lib), snippetLen)]
         + Records(links[1..], web, snippetLen, contentLen, lib)
  }

  /** The record at position `k` is the record of the `k`-th link. */
  lemma {:induction false} RecordsAt(links: seq<string>, k: nat, web: Web, snippetLen: int, contentLen: Option<int>, lib: UrlLib)
    requires k < |links|
    ensures Records(links, web, snippetLen, contentLen, lib)[k] == RecordOf(links[k], DocContentOf(web, links[k], contentLen, lib), snippetLen)
    decreases k
  {
    if k > 0 {
      RecordsAt(links[1..], k - 1, web, snippetLen, contentLen, lib);
    }
  }

  /** Records are built link by link: the records of a list with one more link end with that link's record. */
  lemma {:induction false} RecordsAppend(links: seq<string>, link: string, web: Web, snippetLen: int, contentLen: Option<int>, lib: UrlLib)
    ensures Records(links + [link], web, snippetLen, contentLen, lib)
         == Records(links, web, snippetLen, contentLen, lib) + [RecordOf(link, DocContentOf(web, link, contentLen, lib), snippetLen)]
    decreases |links|
  {
    if links == [] {
      assert [] + [link] == [link];
      assert [link][1..] == [];
    } else {
      assert (links + [link])[1..] == links[1..] + [link];
      RecordsAppend(links[1..], link, web, snippetLen, contentLen, lib);
    }
  }

  /** `deep_search(query, limit, snippet_len, content_len)`. */
  function DeepSearchOf(web: Web, query: string, limit: int, snippetLen: int, contentLen: Option<int>, lib: UrlLib): SearchResponse {
    SearchResponse(query, Records(SearchResults(web, query, limit, lib), web, snippetLen, contentLen, lib))
  }

  /** One record per link in link order; a record is unfetched exactly when extraction failed, and
      a fetched record carries the extracted title and content and a snippet derived from them. */
  lemma DeepSearchRecords(web: Web, query: string, limit: int, snippetLen: int, contentLen: Option<int>, lib: UrlLib)
    ensures var links := SearchResults(web, query, limit, lib);
      var rs := DeepSearchOf(web, query, limit, snippetLen, contentLen, lib).results;
      |rs| == |links|
      && forall i :: 0 <= i < |rs| ==>
           rs[i].url == links[i]
           && (rs[i].Unfetched? <==> !Fetchable(web, links[i]))
           && (rs[i].Found? ==>
                 var e := DocContentOf(web, links[i], contentLen, lib).value;
                 rs[i].title == e.title && rs[i].content == e.content
                 && rs[i].snippet == Snippet(e.paragraphs, e.content, snippetLen))
  {
    var links := SearchResults(web, query, limit, lib);
    var rs := Records(links, web, snippetLen, contentLen, lib);
    forall i | 0 <= i < |links|
      ensures rs[i] == RecordOf(links[i], DocContentOf(web, links[i], contentLen, lib), snippetLen)
      ensures DocContentOf(web, links[i], contentLen, lib).Some? <==> Fetchable(web, links[i])
    {
      RecordsAt(links, i, web, snippetLen, contentLen, lib);
      DocContentSucceeds(web, links[i], contentLen, lib);
    }
  }

  method DeepSearch(query: string, limit: int, snippetLen: int, contentLen: Option<int>, web: Web, lib: UrlLib)
    returns (resp: SearchResponse)
    ensures resp == DeepSearchOf(web, query, limit, snippetLen, contentLen, lib)
  {
    var links := DuckDuckGoSearch(query, limit, web, lib);
    var results := SearchRecordsFor(links, snippetLen, contentLen, web, lib);
    resp := SearchResponse(query, results);
  }

  /** The loop of `deep_search` over the links. */
  method SearchRecordsFor(links: seq<string>, snippetLen: int, contentLen: Option<int>, web: Web, lib: UrlLib)
    returns (results: seq<SearchRecord>)
    ensures results == Records(links, web, snippetLen, contentLen, lib)
  {
    results := [];
    for i := 0 to |links|
      invariant results == Records(links[..i], web, snippetLen, contentLen, lib)
    {
      assert links[..i + 1] == links[..i] + [links[i]];
      var record := SearchRecordFor(links[i], snippetLen, contentLen, web, lib);
      RecordsAppend(links[..i], links[i], web, snippetLen, contentLen, lib);
      results := results + [record];
    }
    assert links[..|links|] == links;
  }

  /** The body of the loop of `deep_search` for one link: extract the page and derive the snippet. */
  method SearchRecordFor(link: string, snippetLen: int, contentLen: Option<int>, web: Web, lib: UrlLib)
    returns (record: SearchRecord)
    ensures record == RecordOf(link, DocContentOf(web, link, contentLen, lib), snippetLen)
  {
    var extracted := ExtractDocContent(web, link, contentLen, lib);
    if extracted.None? {
      return Unfetched(link);
    }
    var e := extracted.value;
    var snippet: string;
    if e.paragraphs != [] {
      snippet := Prefix(e.paragraphs[0], snippetLen);
    } else {
      snippet := if |e.content| > snippetLen then Prefix(e.content, snippetLen) + "..." else e.content;
    }
    record := Found(link, e.title, snippet, e.content, e.favicon, e.previewImage);
  }
}
