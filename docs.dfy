/**
 * `fetch_docs_data` (tools/unifero.py): crawl a documentation site, choose the
 * URLs to report (always including the base URL) and, when asked, extract the
 * content of each one.
 */
module Docs {
  import opened Wrappers
  import opened Text
  import opened Html
  import opened Urls
  import opened Extract
  import opened Content
  import opened Crawl

  /** The cap on the number of documentation pages. */
  const MaxDocs := 10

  /** The `error` of an item whose page could not be fetched or parsed. */
  const FetchError := "failed to fetch or parse"

  /** `limit` after its default (`None` is 10) and the cap at 10. */
  function ClampLimit(limit: Option<int>): int {
    if limit.None? then MaxDocs else if limit.value > MaxDocs then MaxDocs else limit.value
  }

  lemma ClampLimitBounds(limit: Option<int>)
    ensures ClampLimit(limit) <= MaxDocs
    ensures limit.None? ==> ClampLimit(limit) == MaxDocs
    ensures limit.Some? && limit.value > MaxDocs ==> ClampLimit(limit) == MaxDocs
    ensures limit.Some? && limit.value <= MaxDocs ==> ClampLimit(limit) == limit.value
  {
  }

  /** The URLs reported for the crawl result `crawled`: the crawl result cut to `limit`; just
      the base URL when that is empty; otherwise the base URL in front of the first `limit - 1`
      when it is not among them. */
  function DocsUrls(baseUrl: string, crawled: seq<string>, limit: int): seq<string> {
    var links := Prefix(crawled, limit);
    if links == [] then [baseUrl]
    else if baseUrl !in links then [baseUrl] + Prefix(links, limit - 1)
    else links
  }

  /**
   * For a crawl result that is distinct and within the limit: the list is never empty,
   * contains the base URL, has no repetition and holds only the base URL and crawled links;
   * it has at most `limit` entries (one when nothing was crawled). The base URL comes first
   * whenever the crawl did not find it; when it did, the list is the crawl result. Every
   * crawled link but possibly the last one is reported, and all of them when fewer than
   * `limit` were found.
   */
  lemma {:induction false} DocsUrlsShape(baseUrl: string, crawled: seq<string>, limit: int)
    requires Distinct(crawled) && (|crawled| <= limit || crawled == [])
    ensures var r := DocsUrls(baseUrl, crawled, limit);
      && r != [] && baseUrl in r && Distinct(r)
      && (forall x :: x in r ==> x == baseUrl || x in crawled)
      && (crawled == [] ==> r == [baseUrl])
      && (crawled != [] ==> |r| <= limit)
      && (baseUrl !in crawled ==> r[0] == baseUrl)
      && (baseUrl in crawled ==> r == crawled)
      && (forall i :: 0 <= i < |crawled| - 1 ==> crawled[i] in r)
      && (|crawled| < limit ==> forall x :: x in crawled ==> x in r)
  {
    var r := DocsUrls(baseUrl, crawled, limit);
    if crawled != [] {
      assert Prefix(crawled, limit) == crawled;
      if baseUrl !in crawled {
        var tail := Prefix(crawled, limit - 1);
        assert r == [baseUrl] + tail;
        assert |tail| >= |crawled| - 1;
        forall i, j | 0 <= i < j < |r| ensures r[i] != r[j] {
          assert tail[j - 1] == crawled[j - 1];
          if i > 0 {
            assert tail[i - 1] == crawled[i - 1];
          }
        }
        forall x | x in r ensures x == baseUrl || x in crawled {
          if x != baseUrl {
            var k :| 0 <= k < |r| && r[k] == x;
            assert tail[k - 1] == crawled[k - 1];
          }
        }
        forall i | 0 <= i < |crawled| - 1 ensures crawled[i] in r {
          assert r[i + 1] == tail[i] == crawled[i];
        }
        if |crawled| < limit {
          assert tail == crawled;
          assert r[1..] == crawled;
        }
      }
    }
  }

  /** What an item carries besides its URL. */
  datatype DocDetail =
    | UrlOnly
    | Fetched(title: string, content: string, favicon: Option<string>, previewImage: Option<string>)
    | NotFetched(error: string)

  datatype DocItem = DocItem(url: string, detail: DocDetail)

  /** `{"base_url": ..., "results": [...]}`. */
  datatype DocsResponse = DocsResponse(baseUrl: string, results: seq<DocItem>)

  /** The item for `link`: the URL alone without content; otherwise the extracted fields, or
      the failure flags when extraction returned nothing. */
  function ItemOf(web: Web, link: string, includeContent: bool, contentLimit: Option<int>, lib: UrlLib): DocItem {
    if !includeContent then DocItem(link, UrlOnly)
    else
      var extracted := DocContentOf(web, link, contentLimit, lib);
      if extracted.None? then DocItem(link, NotFetched(FetchError))
      else DocItem(link, Fetched(extracted.value.title, extracted.value.content,
                                 extracted.value.favicon, extracted.value.previewImage))
  }

  lemma ItemUrl(web: Web, link: string, includeContent: bool, contentLimit: Option<int>, lib: UrlLib)
    ensures ItemOf(web, link, includeContent, contentLimit, lib).url == link
  {
  }

  function DocItems(web: Web, links: seq<string>, includeContent: bool, contentLimit: Option<int>, lib: UrlLib): (r: seq<DocItem>)
    ensures |r| == |links|
    ensures forall i :: 0 <= i < |links| ==> r[i] == ItemOf(web, links[i], includeContent, contentLimit, lib)
    decreases |links|
  {
    if links == [] then [] else [ItemOf(web, links[0], includeContent, contentLimit, lib)]
                                + DocItems(web, links[1..], includeContent, contentLimit, lib)
  }

  /** Items keep the order and URLs of the links. Without content each item is the URL alone;
      with content an item is marked as failed exactly when its page does not answer 200, and a
      fetched item's content is the assembled text of the page, within a non-negative limit. */
  lemma ItemsShape(web: Web, links: seq<string>, includeContent: bool, contentLimit: Option<int>, lib: UrlLib)
    ensures var r := DocItems(web, links, includeContent, contentLimit, lib);
      forall i :: 0 <= i < |links| ==>
        && r[i].url == links[i]
        && (!includeContent <==> r[i].detail.UrlOnly?)
        && (includeContent ==> (r[i].detail.NotFetched? <==> !Fetchable(web, links[i])))
        && (r[i].detail.NotFetched? ==> r[i].detail.error == FetchError)
        && (r[i].detail.Fetched? ==>
              r[i].detail.content == ContentOf(Paragraphs(web[links[i]].body.elements), contentLimit)
              && (contentLimit.Some? && contentLimit.value >= 0 ==> |r[i].detail.content| <= contentLimit.value))
  {
    var r := DocItems(web, links, includeContent, contentLimit, lib);
    forall i | 0 <= i < |links| ensures r[i].detail.Fetched? ==>
      r[i].detail.content == ContentOf(Paragraphs(web[links[i]].body.elements), contentLimit)
      && (contentLimit.Some? && contentLimit.value >= 0 ==> |r[i].detail.content| <= contentLimit.value)
    {
      DocContentSucceeds(web, links[i], contentLimit, lib);
    }
  }

  /** The results for a crawl result that is distinct and within the limit: at least one item
      and at most `max(1, limit)`, pairwise distinct URLs, and one item for the base URL. */
  lemma {:induction false} DocsResults(web: Web, baseUrl: string, crawled: seq<string>, limit: int,
                                       includeContent: bool, contentLimit: Option<int>, lib: UrlLib)
    requires Distinct(crawled) && (|crawled| <= limit || crawled == [])
    ensures var rs := DocItems(web, DocsUrls(baseUrl, crawled, limit), includeContent, contentLimit, lib);
      && 1 <= |rs| && (|rs| <= limit || |rs| == 1)
      && (forall i, j :: 0 <= i < j < |rs| ==> rs[i].url != rs[j].url)
      && (exists i :: 0 <= i < |rs| && rs[i].url == baseUrl)
  {
    var links := DocsUrls(baseUrl, crawled, limit);
    var rs := DocItems(web, links, includeContent, contentLimit, lib);
    DocsUrlsShape(baseUrl, crawled, limit);
    forall i | 0 <= i < |rs| ensures rs[i].url == links[i] {
      ItemUrl(web, links[i], includeContent, contentLimit, lib);
    }
    var k :| 0 <= k < |links| && links[k] == baseUrl;
    assert rs[k].url == baseUrl;
  }

  /**
   * `fetch_docs_data(base_url, limit, include_content, content_limit)`. `crawled` is what the
   * crawl with the clamped limit returned and `fetched` what it requested, with every guarantee
   * of `crawl_docs`. The response lists the items of the chosen URLs, in order: at most ten, with
   * distinct URLs, and always one for the base URL.
   */
  method FetchDocsData(baseUrl: string, limit: Option<int>, includeContent: bool, contentLimit: Option<int>,
                       web: Web, lib: UrlLib)
    returns (resp: DocsResponse, ghost crawled: seq<string>, ghost fetched: seq<string>)
    ensures IsCrawl(web, lib, baseUrl, ClampLimit(limit), crawled, fetched)
    ensures resp == DocsResponse(baseUrl, DocItems(web, DocsUrls(baseUrl, crawled, ClampLimit(limit)), includeContent, contentLimit, lib))
    ensures 1 <= |resp.results| <= MaxDocs
    ensures forall i, j :: 0 <= i < j < |resp.results| ==> resp.results[i].url != resp.results[j].url
    ensures exists i :: 0 <= i < |resp.results| && resp.results[i].url == baseUrl
  {
    var lim := if limit.None? then 10 else limit.value;
    if lim > 10 {
      lim := 10;
    }
    var found;
    found, fetched := CrawlDocs(baseUrl, lim, web, lib);
    crawled := found;
    SortedDistinct(crawled);
    var links := ChooseUrls(baseUrl, found, lim);
    var data := BuildItems(web, links, includeContent, contentLimit, lib);
    resp := DocsResponse(baseUrl, data);
    DocsResults(web, baseUrl, found, lim, includeContent, contentLimit, lib);
  }

  /** The choice of URLs in `fetch_docs_data`. */
  method ChooseUrls(baseUrl: string, found: seq<string>, limit: int) returns (links: seq<string>)
    requires Distinct(found) && (|found| <= limit || found == []) && limit <= MaxDocs
    ensures links == DocsUrls(baseUrl, found, limit)
    ensures baseUrl in links && 1 <= |links| <= MaxDocs
  {
    links := Prefix(found, limit);
    if links == [] {
      links := [baseUrl];
    } else if baseUrl !in links {
      links := [baseUrl] + Prefix(links, limit - 1);
    }
    DocsUrlsShape(baseUrl, found, limit);
  }

  /** The item loop of `fetch_docs_data`. */
  method BuildItems(web: Web, links: seq<string>, includeContent: bool, contentLimit: Option<int>, lib: UrlLib)
    returns (data: seq<DocItem>)
    ensures data == DocItems(web, links, includeContent, contentLimit, lib)
  {
    data := [];
    for i := 0 to |links|
      invariant |data| == i
      invariant forall k :: 0 <= k < i ==> data[k] == ItemOf(web, links[k], includeContent, contentLimit, lib)
    {
      var link := links[i];
      var item := DocItem(link, UrlOnly);
      if includeContent {
        var extracted := ExtractDocContent(web, link, contentLimit, lib);
        if extracted.None? {
          item := DocItem(link, NotFetched(FetchError));
        } else {
          item := DocItem(link, Fetched(extracted.value.title, extracted.value.content,
                                        extracted.value.favicon, extracted.value.previewImage));
        }
      }
      data := data + [item];
    }
  }
}
