/**
 * `crawl_docs` (tools/unifero.py).
 *
 * The crawl is a breadth-first loop over a queue of URLs, starting at the base
 * URL. Each URL is fetched at most once. A page that answers 200 with an HTML
 * content type contributes the links among its anchors that normalise (against
 * the page's URL) to a URL on the base URL's host containing `/doc`, as long as
 * fewer than `limit` doc links have been found. The result is the sorted set of
 * doc links.
 */
module Crawl {
  import opened Wrappers
  import opened Text
  import opened Html
  import opened Urls
  import opened Content

  // ---------------------------------------------------------------- string order

  /** Python's `<` on `str`: lexicographic by code point, a proper prefix first. */
  predicate Less(a: string, b: string)
    decreases |a|
  {
    if a == [] then b != []
    else if b == [] then false
    else if a[0] != b[0] then a[0] < b[0]
    else Less(a[1..], b[1..])
  }

  lemma {:induction false} LessIrreflexive(a: string)
    ensures !Less(a, a)
    decreases |a|
  {
    if a != [] {
      LessIrreflexive(a[1..]);
    }
  }

  lemma {:induction false} LessTransitive(a: string, b: string, c: string)
    requires Less(a, b) && Less(b, c)
    ensures Less(a, c)
    decreases |a|
  {
    if a != [] && a[0] == b[0] && b[0] == c[0] {
      LessTransitive(a[1..], b[1..], c[1..]);
    }
  }

  lemma {:induction false} LessTotal(a: string, b: string)
    requires a != b
    ensures Less(a, b) || Less(b, a)
    decreases |a|
  {
    if a != [] && b != [] && a[0] == b[0] {
      assert a == [a[0]] + a[1..] && b == [b[0]] + b[1..];
      LessTotal(a[1..], b[1..]);
    }
  }

  lemma {:induction false} LessAsymmetric(a: string, b: string)
    requires Less(a, b)
    ensures !Less(b, a)
    decreases |a|
  {
    if a != [] && a[0] == b[0] {
      LessAsymmetric(a[1..], b[1..]);
    }
  }

  predicate StrictlySorted(s: seq<string>) {
    forall i, j :: 0 <= i < j < |s| ==> Less(s[i], s[j])
  }

  lemma SortedDistinct(s: seq<string>)
    requires StrictlySorted(s)
    ensures Distinct(s)
  {
    forall i, j | 0 <= i < j < |s| ensures s[i] != s[j] {
      if s[i] == s[j] {
        LessIrreflexive(s[i]);
      }
    }
  }

  /** `x` inserted into a sorted list at its place. */
  function InsertSorted(s: seq<string>, x: string): (r: seq<string>)
    requires StrictlySorted(s) && x !in s
    ensures StrictlySorted(r)
    ensures forall y :: y in r <==> y in s || y == x
    ensures |r| == |s| + 1
    decreases |s|
  {
    if s == [] then [x]
    else if Less(x, s[0]) then
      assert forall j :: 0 <= j < |s| ==> Less(x, s[j]) by {
        forall j | 0 <= j < |s| ensures Less(x, s[j]) {
          if j > 0 { LessTransitive(x, s[0], s[j]); }
        }
      }
      [x] + s
    else
      LessTotal(x, s[0]);
      var rest := InsertSorted(s[1..], x);
      assert forall y :: y in rest ==> Less(s[0], y) by {
        forall y | y in rest ensures Less(s[0], y) {
          if y != x {
            var j :| 1 <= j < |s| && s[j] == y;
          }
        }
      }
      [s[0]] + rest
  }

  /** `sorted(docs_links)`. */
  method SortedList(elems: set<string>) returns (r: seq<string>)
    ensures StrictlySorted(r)
    ensures forall y :: y in r <==> y in elems
    ensures |r| == |elems|
  {
    r := [];
    var rest := elems;
    while rest != {}
      invariant rest <= elems
      invariant StrictlySorted(r)
      invariant forall y :: y in r <==> y in elems && y !in rest
      invariant |r| + |rest| == |elems|
      decreases |rest|
    {
      var x :| x in rest;
      r := InsertSorted(r, x);
      rest := rest - {x};
    }
  }

  lemma {:induction false} SubsetCard(a: set<string>, b: set<string>)
    requires a <= b
    ensures |a| <= |b|
    decreases |a|
  {
    if a != {} {
      var x :| x in a;
      SubsetCard(a - {x}, b - {x});
    }
  }

  // ---------------------------------------------------------------- the link graph

  /** The page answered 200 with a `Content-Type` containing `text/html`. */
  predicate PageOk(web: Web, url: string) {
    url in web && web[url].status == 200 && Contains(web[url].contentType, "text/html")
  }

  /** `normalize_url(a["href"], base=url)` for an anchor with an `href`. */
  function AnchorLink(a: Anchor, url: string, lib: UrlLib): Option<string> {
    if a.href.None? then None else NormalizeUrl(a.href.value, Some(url), lib)
  }

  /** The normalised links of a page's anchors, in document order. */
  function PageLinks(anchors: seq<Anchor>, url: string, lib: UrlLib): (r: seq<Option<string>>)
    ensures |r| == |anchors|
  {
    seq(|anchors|, j requires 0 <= j < |anchors| => AnchorLink(anchors[j], url, lib))
  }

  /** The normalised links of the page fetched from `p`. */
  function Links(web: Web, p: string, lib: UrlLib): seq<Option<string>>
    requires p in web
  {
    PageLinks(web[p].body.anchors, p, lib)
  }

  /** A link the crawl keeps: on the base URL's network location and containing `/doc`. */
  predicate IsDocLink(link: string, domain: string) {
    Netloc(link) == domain && Contains(link, "/doc")
  }

  /** The HTML page `p` has an anchor that normalises to `x`. */
  predicate LinksTo(web: Web, p: string, x: string, lib: UrlLib) {
    PageOk(web, p) && x != "" && Some(x) in Links(web, p, lib)
  }

  /** A normalised link that needs no further work: unusable, not a doc link, already found or visited. */
  predicate Covered(o: Option<string>, domain: string, visited: set<string>, docs: set<string>) {
    !Truthy(o) || !IsDocLink(o.value, domain) || o.value in docs || o.value in visited
  }

  /** Every link of the page `p` (when it is an HTML page) is covered. */
  predicate PageCovered(web: Web, p: string, lib: UrlLib, domain: string, visited: set<string>, docs: set<string>) {
    PageOk(web, p) ==> forall o :: o in Links(web, p, lib) ==> Covered(o, domain, visited, docs)
  }

  lemma PageCoveredGrows(web: Web, p: string, lib: UrlLib, domain: string,
                         visited: set<string>, docs: set<string>, visited': set<string>, docs': set<string>)
    requires PageCovered(web, p, lib, domain, visited, docs)
    requires visited <= visited' && docs <= docs'
    ensures PageCovered(web, p, lib, domain, visited', docs')
  {
  }

  lemma CoveredLink(web: Web, p: string, x: string, lib: UrlLib, domain: string, visited: set<string>, docs: set<string>)
    requires PageCovered(web, p, lib, domain, visited, docs) && LinksTo(web, p, x, lib) && IsDocLink(x, domain)
    ensures x in docs || x in visited
  {
    assert Covered(Some(x), domain, visited, docs);
  }

  /** The test `crawl_docs` applies to one anchor of the page `url`: `normalized` is the anchor's
      normalised link, and `record` says whether it is a doc link to record and queue (one not yet
      visited, while fewer than `limit` have been found). */
  method AnchorStep(a: Anchor, url: string, domain: string, visited: set<string>, docs: set<string>,
                    limit: int, lib: UrlLib) returns (normalized: Option<string>, record: bool)
    ensures normalized == AnchorLink(a, url, lib)
    ensures record <==> |docs| < limit && Truthy(normalized) && IsDocLink(normalized.value, domain) && normalized.value !in visited
  {
    normalized := None;
    record := false;
    if a.href.Some? {
      normalized := NormalizeUrl(a.href.value, Some(url), lib);
      if Truthy(normalized) && Netloc(normalized.value) == domain && Contains(normalized.value, "/doc") {
        if normalized.value !in visited && |docs| < limit {
          record := true;
        }
      }
    }
  }

  /** The anchor loop records the normalised link `o` when `docs` are known: a truthy doc link that was
      not visited, while fewer than `limit` doc links are known. */
  predicate RecordsLink(o: Option<string>, domain: string, visited: set<string>, docs: set<string>, limit: int) {
    |docs| < limit && Truthy(o) && IsDocLink(o.value, domain) && o.value !in visited
  }

  /** The links the anchor loop records and queues, in anchor order, for the normalised links `norm`
      when `docs` are known on entry. A link already known is recorded and queued again. */
  function Recorded(norm: seq<Option<string>>, domain: string, visited: set<string>, docs: set<string>, limit: int): seq<string>
    decreases |norm|
  {
    if norm == [] then []
    else if RecordsLink(norm[0], domain, visited, docs, limit) then
      [norm[0].value] + Recorded(norm[1..], domain, visited, docs + {norm[0].value}, limit)
    else Recorded(norm[1..], domain, visited, docs, limit)
  }

  /** One anchor of the loop: the anchor at `i` records its link or passes, then the rest follow. */
  lemma RecordedStep(norm: seq<Option<string>>, i: nat, domain: string, visited: set<string>, docs: set<string>, limit: int)
    requires i < |norm|
    ensures Recorded(norm[i..], domain, visited, docs, limit)
         == if RecordsLink(norm[i], domain, visited, docs, limit)
            then [norm[i].value] + Recorded(norm[i + 1..], domain, visited, docs + {norm[i].value}, limit)
            else Recorded(norm[i + 1..], domain, visited, docs, limit)
  {
    assert norm[i..][0] == norm[i];
    assert norm[i..][1..] == norm[i + 1..];
  }

  /** The anchor at `i` keeps the loop's agreement with `Recorded` and the found set made of the
      links found before the loop and those recorded in it. */
  lemma RecordedAdvance(norm: seq<Option<string>>, i: nat, domain: string, visited: set<string>, docs0: set<string>,
                        limit: int, docs: set<string>, added: seq<string>)
    requires i < |norm|
    requires added + Recorded(norm[i..], domain, visited, docs, limit) == Recorded(norm, domain, visited, docs0, limit)
    requires forall x :: x in docs <==> x in docs0 || x in added
    ensures var r := RecordsLink(norm[i], domain, visited, docs, limit);
      var docs' := if r then docs + {norm[i].value} else docs;
      var added' := if r then added + [norm[i].value] else added;
      && added' + Recorded(norm[i + 1..], domain, visited, docs', limit) == Recorded(norm, domain, visited, docs0, limit)
      && (forall x :: x in docs' <==> x in docs0 || x in added')
  {
    RecordedStep(norm, i, domain, visited, docs, limit);
    if RecordsLink(norm[i], domain, visited, docs, limit) {
      var x := norm[i].value;
      assert added + [x] + Recorded(norm[i + 1..], domain, visited, docs + {x}, limit)
          == added + ([x] + Recorded(norm[i + 1..], domain, visited, docs + {x}, limit));
    }
  }

  /** The invariant of the anchor loop after `i` anchors: `docs` grew from `docs0` by doc links
      of the page that were not visited, each new one witnessed by `source`, the queue grew by
      `added`, and while fewer than `limit` doc links are known every link seen is covered. */
  ghost predicate VisitInv(norm: seq<Option<string>>, i: nat, domain: string, visited: set<string>,
                           docs0: set<string>, queue0: seq<string>, limit: int,
                           docs: set<string>, queue: seq<string>, added: seq<string>, source: map<string, nat>)
  {
    i <= |norm|
    && docs0 <= docs
    && (|docs| <= limit || docs == docs0)
    && queue == queue0 + added
    && NewLinks(domain, visited, docs0, docs, added)
    && Witnessed(norm, i, docs0, docs, source)
    && SeenCovered(norm, i, domain, visited, docs, limit)
  }

  /** Everything queued was recorded, and every recorded link is an unvisited doc link that was queued. */
  ghost predicate NewLinks(domain: string, visited: set<string>, docs0: set<string>, docs: set<string>, added: seq<string>) {
    && (forall k :: 0 <= k < |added| ==> added[k] in docs)
    && (forall x :: x in docs && x !in docs0 ==> x in added && x !in visited && IsDocLink(x, domain) && x != "")
  }

  /** Each recorded link comes from one of the first `i` anchors. */
  ghost predicate Witnessed(norm: seq<Option<string>>, i: nat, docs0: set<string>, docs: set<string>, source: map<string, nat>)
    requires i <= |norm|
  {
    forall x :: x in docs && x !in docs0 ==> x in source && source[x] < i && norm[source[x]] == Some(x)
  }

  /** Below the limit, the links of the first `i` anchors need no further work. */
  ghost predicate SeenCovered(norm: seq<Option<string>>, i: nat, domain: string, visited: set<string>, docs: set<string>, limit: int)
    requires i <= |norm|
  {
    |docs| < limit ==> forall j :: 0 <= j < i ==> Covered(norm[j], domain, visited, docs)
  }

  /** The anchor loop of `crawl_docs` for the HTML page `url`, which is already in `visited`;
      `norm` holds the anchors' normalised links. `added` is what the loop appends to the queue,
      and for each new doc link `x`, `source[x]` is an anchor it came from. */
  method VisitPage(url: string, anchors: seq<Anchor>, ghost norm: seq<Option<string>>, domain: string,
                   visited: set<string>, docs0: set<string>, queue0: seq<string>, limit: int, lib: UrlLib)
    returns (docs: set<string>, queue: seq<string>, ghost added: seq<string>, ghost source: map<string, nat>)
    requires |norm| == |anchors| && forall j :: 0 <= j < |anchors| ==> norm[j] == AnchorLink(anchors[j], url, lib)
    ensures added == Recorded(norm, domain, visited, docs0, limit)
    ensures queue == queue0 + added
    ensures forall x :: x in docs <==> x in docs0 || x in added
    ensures VisitInv(norm, |norm|, domain, visited, docs0, queue0, limit, docs, queue, added, source)
  {
    docs := docs0;
    queue := queue0;
    added := [];
    source := map[];
    assert norm[0..] == norm;
    for i := 0 to |anchors|
      invariant VisitInv(norm, i, domain, visited, docs0, queue0, limit, docs, queue, added, source)
      invariant added + Recorded(norm[i..], domain, visited, docs, limit) == Recorded(norm, domain, visited, docs0, limit)
      invariant forall x :: x in docs <==> x in docs0 || x in added
    {
      var link, record := AnchorStep(anchors[i], url, domain, visited, docs, limit, lib);
      assert link == norm[i];
      RecordedAdvance(norm, i, domain, visited, docs0, limit, docs, added);
      if record {
        RecordLink(norm, i, domain, visited, docs0, queue0, limit, docs, queue, added, source);
        docs := docs + {link.value};
        queue := queue + [link.value];
        added := added + [link.value];
        source := source[link.value := i];
      } else {
        SkipLink(norm, i, domain, visited, docs0, queue0, limit, docs, queue, added, source);
      }
    }
  }

  /** Recording the doc link of anchor `i` keeps the invariant. */
  lemma RecordLink(norm: seq<Option<string>>, i: nat, domain: string, visited: set<string>,
                   docs0: set<string>, queue0: seq<string>, limit: int,
                   docs: set<string>, queue: seq<string>, added: seq<string>, source: map<string, nat>)
    requires VisitInv(norm, i, domain, visited, docs0, queue0, limit, docs, queue, added, source)
    requires i < |norm| && |docs| < limit && Truthy(norm[i])
    requires IsDocLink(norm[i].value, domain) && norm[i].value !in visited
    ensures var x := norm[i].value;
      VisitInv(norm, i + 1, domain, visited, docs0, queue0, limit, docs + {x}, queue + [x], added + [x], source[x := i])
  {
    var x := norm[i].value;
    assert queue + [x] == queue0 + (added + [x]);
    RecordAdded(domain, visited, docs0, docs, added, x);
    RecordWitness(norm, i, docs0, docs, source, x);
    CoveredStep(norm, i, domain, visited, docs, docs + {x}, limit);
  }

  /** The recorded link joins `added`, and the new doc links stay unvisited doc links. */
  lemma RecordAdded(domain: string, visited: set<string>, docs0: set<string>, docs: set<string>,
                    added: seq<string>, x: string)
    requires NewLinks(domain, visited, docs0, docs, added)
    requires x !in visited && IsDocLink(x, domain) && x != ""
    ensures NewLinks(domain, visited, docs0, docs + {x}, added + [x])
  {
  }

  /** Anchor `i` becomes the witness of the recorded link; the other witnesses stay. */
  lemma RecordWitness(norm: seq<Option<string>>, i: nat, docs0: set<string>, docs: set<string>,
                      source: map<string, nat>, x: string)
    requires i < |norm| && norm[i] == Some(x)
    requires Witnessed(norm, i, docs0, docs, source)
    ensures Witnessed(norm, i + 1, docs0, docs + {x}, source[x := i])
  {
    var source' := source[x := i];
    forall y | y in docs + {x} && y !in docs0
      ensures y in source' && source'[y] < i + 1 && norm[source'[y]] == Some(y)
    {
      if y != x {
        assert source'[y] == source[y];
      }
    }
  }

  /** Passing over an anchor that gives no doc link to record keeps the invariant. */
  lemma SkipLink(norm: seq<Option<string>>, i: nat, domain: string, visited: set<string>,
                 docs0: set<string>, queue0: seq<string>, limit: int,
                 docs: set<string>, queue: seq<string>, added: seq<string>, source: map<string, nat>)
    requires VisitInv(norm, i, domain, visited, docs0, queue0, limit, docs, queue, added, source)
    requires i < |norm|
    requires !(|docs| < limit && Truthy(norm[i]) && IsDocLink(norm[i].value, domain) && norm[i].value !in visited)
    ensures VisitInv(norm, i + 1, domain, visited, docs0, queue0, limit, docs, queue, added, source)
  {
    CoveredStep(norm, i, domain, visited, docs, docs, limit);
  }

  lemma CoveredStep(norm: seq<Option<string>>, i: nat, domain: string, visited: set<string>,
                    docs: set<string>, docs': set<string>, limit: int)
    requires i < |norm| && docs <= docs'
    requires SeenCovered(norm, i, domain, visited, docs, limit)
    requires |docs'| < limit ==> Covered(norm[i], domain, visited, docs')
    ensures SeenCovered(norm, i + 1, domain, visited, docs', limit)
  {
    if |docs'| < limit {
      SubsetCard(docs, docs');
      forall j | 0 <= j < i + 1 ensures Covered(norm[j], domain, visited, docs') {
        if j < i {
          assert Covered(norm[j], domain, visited, docs);
        }
      }
    }
  }

  /** The loop invariant of `crawl_docs`, in three parts. `fetched` lists the URLs taken from the
      queue and requested; `parent[x]` is a fetched page that links to the doc link `x`. */
  ghost predicate CrawlInv(web: Web, lib: UrlLib, baseUrl: string, limit: int, visited: set<string>,
                           toVisit: seq<string>, docs: set<string>, fetched: seq<string>, parent: map<string, string>)
  {
    Bookkeeping(baseUrl, limit, visited, toVisit, docs, fetched)
    && QueueInv(baseUrl, limit, visited, toVisit, docs)
    && GraphInv(web, lib, Netloc(baseUrl), limit, visited, docs, parent)
  }

  /** The visited set is what was fetched, without repetition, starting with the base URL; the
      doc links never exceed `limit`. */
  ghost predicate Bookkeeping(baseUrl: string, limit: int, visited: set<string>, toVisit: seq<string>,
                              docs: set<string>, fetched: seq<string>)
  {
    (forall x :: x in visited <==> x in fetched)
    && Distinct(fetched)
    && (forall x :: x in visited ==> x == baseUrl || x in docs)
    && (|docs| <= limit || docs == {})
    && (fetched == [] ==> toVisit == [baseUrl] && docs == {})
    && (fetched != [] ==> fetched[0] == baseUrl)
    && (limit <= 0 ==> fetched == [])
  }

  /** The queue holds the base URL and doc links; while fewer than `limit` doc links are known,
      each is visited or still queued. */
  ghost predicate QueueInv(baseUrl: string, limit: int, visited: set<string>, toVisit: seq<string>, docs: set<string>) {
    (forall k :: 0 <= k < |toVisit| ==> toVisit[k] == baseUrl || toVisit[k] in docs)
    && (|docs| < limit ==> forall x :: x in docs ==> x in visited || x in toVisit)
  }

  /** Each doc link is linked from a visited page; while fewer than `limit` are known, every link
      of every visited page is covered. */
  ghost predicate GraphInv(web: Web, lib: UrlLib, domain: string, limit: int, visited: set<string>,
                           docs: set<string>, parent: map<string, string>)
  {
    (forall x :: x in docs ==> IsDocLink(x, domain) && x in parent && parent[x] in visited && LinksTo(web, parent[x], x, lib))
    && (|docs| < limit ==> forall p :: p in visited ==> PageCovered(web, p, lib, domain, visited, docs))
  }

  /** Every fetched URL after the first is linked from a page fetched before it. */
  ghost predicate Reached(web: Web, lib: UrlLib, fetched: seq<string>) {
    forall k :: 0 < k < |fetched| ==> LinkedBefore(web, lib, fetched, k)
  }

  /** The URL at `k` is linked from one at an earlier index. */
  ghost predicate LinkedBefore(web: Web, lib: UrlLib, fetched: seq<string>, k: nat)
    requires k < |fetched|
  {
    exists j :: 0 <= j < k && LinksTo(web, fetched[j], fetched[k], lib)
  }

  /** The next URL taken from the queue and fetched is linked from a page fetched before it. */
  lemma ReachNext(web: Web, lib: UrlLib, baseUrl: string, limit: int, visited: set<string>, toVisit: seq<string>,
                  docs: set<string>, fetched: seq<string>, parent: map<string, string>)
    requires CrawlInv(web, lib, baseUrl, limit, visited, toVisit, docs, fetched, parent)
    requires toVisit != [] && toVisit[0] !in visited && Reached(web, lib, fetched)
    ensures Reached(web, lib, fetched + [toVisit[0]])
  {
    var url := toVisit[0];
    if fetched != [] {
      assert fetched[0] == baseUrl && baseUrl in visited;
      assert url in docs;
      ReachAppend(web, lib, fetched, url, parent[url]);
    }
  }

  /** Appending a URL that a fetched page links to keeps the fetched URLs reached. */
  lemma ReachAppend(web: Web, lib: UrlLib, fetched: seq<string>, url: string, p: string)
    requires Reached(web, lib, fetched) && p in fetched && LinksTo(web, p, url, lib)
    ensures Reached(web, lib, fetched + [url])
  {
    var f := fetched + [url];
    var j :| 0 <= j < |fetched| && fetched[j] == p;
    forall k | 0 < k < |f| ensures LinkedBefore(web, lib, f, k) {
      if k < |fetched| {
        assert LinkedBefore(web, lib, fetched, k);
        var i :| 0 <= i < k && LinksTo(web, fetched[i], fetched[k], lib);
        assert f[i] == fetched[i] && f[k] == fetched[k];
        assert LinksTo(web, f[i], f[k], lib);
      } else {
        assert f[j] == p && f[k] == url;
        assert LinksTo(web, f[j], f[k], lib);
      }
    }
  }

  /**
   * What `crawl_docs(base_url, limit)` guarantees of its result `links`, where `fetched` lists the URLs
   * requested, in order. The doc links are sorted and at most `limit`; each is on the base URL's host,
   * contains `/doc` and is linked from an HTML page that was fetched. No URL is fetched twice, every
   * fetched URL is the base URL or a doc link, the base URL is fetched first, and nothing is fetched
   * when `limit <= 0`. Every fetched URL but the base is linked from a page fetched before it, so the
   * crawl only reaches what the base URL leads to. When fewer than `limit` doc links were found the
   * crawl is complete: every doc link was fetched, and every doc link on a fetched HTML page is among
   * the results or is the base URL.
   */
  ghost predicate IsCrawl(web: Web, lib: UrlLib, baseUrl: string, limit: int, links: seq<string>, fetched: seq<string>) {
    && StrictlySorted(links)
    && (|links| <= limit || links == [])
    && (forall x :: x in links ==> IsDocLink(x, Netloc(baseUrl)) && exists p :: p in fetched && LinksTo(web, p, x, lib))
    && Distinct(fetched)
    && (forall p :: p in fetched ==> p == baseUrl || p in links)
    && (limit > 0 ==> fetched != [] && fetched[0] == baseUrl)
    && (limit <= 0 ==> fetched == [] && links == [])
    && Reached(web, lib, fetched)
    && (|links| < limit ==> forall x :: x in links ==> x in fetched)
    && (|links| < limit ==> forall p, x :: p in fetched && LinksTo(web, p, x, lib) && IsDocLink(x, Netloc(baseUrl))
                                           ==> x in links || x == baseUrl)
  }

  /** `crawl_docs(base_url, limit)`: the sorted doc links and, as a ghost, the URLs it requested. */
  method CrawlDocs(baseUrl: string, limit: int, web: Web, lib: UrlLib)
    returns (links: seq<string>, ghost fetched: seq<string>)
    ensures IsCrawl(web, lib, baseUrl, limit, links, fetched)
  {
    var visited: set<string> := {};
    var toVisit := [baseUrl];
    var domain := Netloc(baseUrl);
    var docs: set<string> := {};
    fetched := [];
    ghost var parent: map<string, string> := map[];
    while toVisit != [] && |docs| < limit
      invariant CrawlInv(web, lib, baseUrl, limit, visited, toVisit, docs, fetched, parent)
      invariant Reached(web, lib, fetched)
      decreases limit + 1 - |visited|, |toVisit|
    {
      ghost var visited0, toVisit0, docs0, fetched0, parent0 := visited, toVisit, docs, fetched, parent;
      visited, toVisit, docs, fetched, parent := CrawlStep(web, lib, baseUrl, limit, visited, toVisit, docs, fetched, parent);
      if fetched != fetched0 {
        ReachNext(web, lib, baseUrl, limit, visited0, toVisit0, docs0, fetched0, parent0);
      }
    }
    links := SortedList(docs);
    CrawlExit(web, lib, baseUrl, limit, visited, toVisit, docs, fetched, parent, links);
  }

  /** One pass of the `while` loop of `crawl_docs`: pop the first queued URL and, unless it was
      visited already, fetch it and run the anchor loop over it when it is an HTML page. */
  method CrawlStep(web: Web, lib: UrlLib, baseUrl: string, limit: int, visited: set<string>, toVisit: seq<string>,
                   docs: set<string>, ghost fetched: seq<string>, ghost parent: map<string, string>)
    returns (visited': set<string>, toVisit': seq<string>, docs': set<string>,
             ghost fetched': seq<string>, ghost parent': map<string, string>)
    requires CrawlInv(web, lib, baseUrl, limit, visited, toVisit, docs, fetched, parent)
    requires toVisit != [] && |docs| < limit
    ensures CrawlInv(web, lib, baseUrl, limit, visited', toVisit', docs', fetched', parent')
    ensures fetched' == fetched || (toVisit[0] !in visited && fetched' == fetched + [toVisit[0]])
    ensures (visited' == visited && |toVisit'| < |toVisit|) || (|visited| < |visited'| && |visited| <= limit)
  {
    var url := toVisit[0];
    toVisit' := toVisit[1..];
    visited', docs', fetched', parent' := visited, docs, fetched, parent;
    if url in visited {
      PopVisited(web, lib, baseUrl, limit, visited, toVisit, docs, fetched, parent);
      return;
    }
    SubsetCard(visited, {baseUrl} + docs);
    visited' := visited + {url};
    fetched' := fetched + [url];
    if !PageOk(web, url) {
      FetchPlain(web, lib, baseUrl, limit, visited, toVisit, docs, fetched, parent);
      return;
    }
    docs', toVisit', parent' := VisitHtml(web, lib, baseUrl, limit, visited, toVisit, docs, fetched, parent);
  }

  /** The HTML branch of one pass: run the anchor loop over the page just fetched. */
  method VisitHtml(web: Web, lib: UrlLib, baseUrl: string, limit: int, visited: set<string>, toVisit: seq<string>,
                   docs: set<string>, ghost fetched: seq<string>, ghost parent: map<string, string>)
    returns (docs': set<string>, toVisit': seq<string>, ghost parent': map<string, string>)
    requires CrawlInv(web, lib, baseUrl, limit, visited, toVisit, docs, fetched, parent)
    requires toVisit != [] && toVisit[0] !in visited && |docs| < limit && PageOk(web, toVisit[0])
    ensures CrawlInv(web, lib, baseUrl, limit, visited + {toVisit[0]}, toVisit', docs', fetched + [toVisit[0]], parent')
  {
    var url := toVisit[0];
    ghost var added, source;
    docs', toVisit', added, source := VisitPage(url, web[url].body.anchors, Links(web, url, lib), Netloc(baseUrl),
                                                visited + {url}, docs, toVisit[1..], limit, lib);
    parent' := FetchHtml(web, lib, baseUrl, limit, visited, toVisit, docs, fetched, parent, docs', toVisit', added, source);
  }

  /** When the loop stops, the invariant gives the properties of the sorted result. */
  lemma CrawlExit(web: Web, lib: UrlLib, baseUrl: string, limit: int, visited: set<string>, toVisit: seq<string>,
                  docs: set<string>, fetched: seq<string>, parent: map<string, string>, links: seq<string>)
    requires CrawlInv(web, lib, baseUrl, limit, visited, toVisit, docs, fetched, parent)
    requires toVisit == [] || |docs| >= limit
    requires (forall y :: y in links <==> y in docs) && |links| == |docs|
    ensures |links| <= limit || links == []
    ensures forall x :: x in links ==>
      IsDocLink(x, Netloc(baseUrl)) && exists p :: p in fetched && LinksTo(web, p, x, lib)
    ensures forall p :: p in fetched ==> p == baseUrl || p in links
    ensures limit > 0 ==> fetched != [] && fetched[0] == baseUrl
    ensures limit <= 0 ==> fetched == [] && links == []
    ensures |links| < limit ==> forall x :: x in links ==> x in fetched
    ensures |links| < limit ==> forall p, x :: p in fetched && LinksTo(web, p, x, lib) && IsDocLink(x, Netloc(baseUrl))
                                              ==> x in links || x == baseUrl
  {
    var domain := Netloc(baseUrl);
    if |docs| < limit {
      forall p, x | p in fetched && LinksTo(web, p, x, lib) && IsDocLink(x, domain) ensures x in docs || x == baseUrl {
        CoveredLink(web, p, x, lib, domain, visited, docs);
      }
    }
    forall x | x in links ensures exists p :: p in fetched && LinksTo(web, p, x, lib) {
      assert parent[x] in fetched;
    }
  }

  /** Popping a URL that was already visited keeps the invariant. */
  lemma PopVisited(web: Web, lib: UrlLib, baseUrl: string, limit: int, visited: set<string>,
                   toVisit: seq<string>, docs: set<string>, fetched: seq<string>, parent: map<string, string>)
    requires CrawlInv(web, lib, baseUrl, limit, visited, toVisit, docs, fetched, parent)
    requires toVisit != [] && toVisit[0] in visited && |docs| < limit
    ensures CrawlInv(web, lib, baseUrl, limit, visited, toVisit[1..], docs, fetched, parent)
  {
    forall x | x in docs ensures x in visited || x in toVisit[1..] {
      if x !in visited {
        var k :| 0 <= k < |toVisit| && toVisit[k] == x;
        assert toVisit[1..][k - 1] == x;
      }
    }
  }

  /** Fetching a new URL that does not answer with an HTML page keeps the invariant. */
  lemma FetchPlain(web: Web, lib: UrlLib, baseUrl: string, limit: int, visited: set<string>,
                   toVisit: seq<string>, docs: set<string>, fetched: seq<string>, parent: map<string, string>)
    requires CrawlInv(web, lib, baseUrl, limit, visited, toVisit, docs, fetched, parent)
    requires toVisit != [] && toVisit[0] !in visited && |docs| < limit && !PageOk(web, toVisit[0])
    ensures CrawlInv(web, lib, baseUrl, limit, visited + {toVisit[0]}, toVisit[1..], docs, fetched + [toVisit[0]], parent)
  {
    var url := toVisit[0];
    BookStep(baseUrl, limit, visited, toVisit, docs, docs, fetched, toVisit[1..]);
    HtmlQueue(baseUrl, visited + {url}, toVisit, docs, docs, toVisit[1..], [], limit);
    AfterSkip(web, lib, Netloc(baseUrl), visited, url, docs, limit);
  }

  /** Taking a new URL from the queue and fetching it keeps the bookkeeping. */
  lemma BookStep(baseUrl: string, limit: int, visited: set<string>, toVisit: seq<string>,
                 docs0: set<string>, docs: set<string>, fetched: seq<string>, queue: seq<string>)
    requires Bookkeeping(baseUrl, limit, visited, toVisit, docs0, fetched)
    requires toVisit != [] && toVisit[0] !in visited && |docs0| < limit
    requires toVisit[0] == baseUrl || toVisit[0] in docs0
    requires docs0 <= docs && (|docs| <= limit || docs == docs0)
    ensures Bookkeeping(baseUrl, limit, visited + {toVisit[0]}, queue, docs, fetched + [toVisit[0]])
  {
    var url := toVisit[0];
    DistinctAppend(fetched, url);
    assert fetched == [] ==> url == baseUrl;
    assert (fetched + [url])[0] == baseUrl;
  }

  /** Fetching a new HTML page and running the anchor loop over it keeps the invariant. */
  lemma FetchHtml(web: Web, lib: UrlLib, baseUrl: string, limit: int, visited: set<string>,
                  toVisit: seq<string>, docs0: set<string>, fetched: seq<string>, parent: map<string, string>,
                  docs: set<string>, queue: seq<string>, added: seq<string>, source: map<string, nat>)
    returns (parent': map<string, string>)
    requires CrawlInv(web, lib, baseUrl, limit, visited, toVisit, docs0, fetched, parent)
    requires toVisit != [] && toVisit[0] !in visited && |docs0| < limit && PageOk(web, toVisit[0])
    requires VisitInv(Links(web, toVisit[0], lib), |Links(web, toVisit[0], lib)|, Netloc(baseUrl), visited + {toVisit[0]},
                      docs0, toVisit[1..], limit, docs, queue, added, source)
    ensures CrawlInv(web, lib, baseUrl, limit, visited + {toVisit[0]}, queue, docs, fetched + [toVisit[0]], parent')
  {
    var url := toVisit[0];
    BookStep(baseUrl, limit, visited, toVisit, docs0, docs, fetched, queue);
    HtmlQueue(baseUrl, visited + {url}, toVisit, docs0, docs, queue, added, limit);
    parent' := HtmlParents(web, lib, Netloc(baseUrl), visited, url, docs0, docs, source, parent);
    HtmlCovered(web, lib, Netloc(baseUrl), visited, url, docs0, docs, limit);
  }

  /** After the anchor loop the queue holds the base URL and doc links only, and while fewer than
      `limit` are known every doc link is visited or queued. */
  lemma HtmlQueue(baseUrl: string, visited: set<string>, toVisit: seq<string>, docs0: set<string>, docs: set<string>,
                  queue: seq<string>, added: seq<string>, limit: int)
    requires toVisit != [] && toVisit[0] in visited
    requires forall k :: 0 <= k < |toVisit| ==> toVisit[k] == baseUrl || toVisit[k] in docs0
    requires |docs0| < limit ==> forall x :: x in docs0 ==> x in visited || x in toVisit
    requires docs0 <= docs && queue == toVisit[1..] + added
    requires forall k :: 0 <= k < |added| ==> added[k] in docs
    requires forall x :: x in docs && x !in docs0 ==> x in added
    ensures QueueInv(baseUrl, limit, visited, queue, docs)
  {
    var rest := toVisit[1..];
    forall k | 0 <= k < |queue| ensures queue[k] == baseUrl || queue[k] in docs {
      if k < |rest| {
        assert queue[k] == toVisit[k + 1];
      } else {
        assert queue[k] == added[k - |rest|];
      }
    }
    if |docs| < limit {
      SubsetCard(docs0, docs);
      forall x | x in docs ensures x in visited || x in queue {
        if x in docs0 && x !in visited {
          var k :| 0 <= k < |toVisit| && toVisit[k] == x;
          assert queue[k - 1] == x;
        } else if x !in docs0 {
          var k :| 0 <= k < |added| && added[k] == x;
          assert queue[|rest| + k] == x;
        }
      }
    }
  }

  /** Each doc link keeps a fetched page that links to it: the old ones their old page, the new
      ones the page `url`. */
  lemma HtmlParents(web: Web, lib: UrlLib, domain: string, visited: set<string>, url: string,
                    docs0: set<string>, docs: set<string>, source: map<string, nat>, parent: map<string, string>)
    returns (parent': map<string, string>)
    requires PageOk(web, url) && docs0 <= docs
    requires forall x :: x in docs0 ==> IsDocLink(x, domain) && x in parent && parent[x] in visited && LinksTo(web, parent[x], x, lib)
    requires forall x :: x in docs && x !in docs0 ==> IsDocLink(x, domain) && x != ""
    requires forall x :: x in docs && x !in docs0 ==>
      x in source && source[x] < |Links(web, url, lib)| && Links(web, url, lib)[source[x]] == Some(x)
    ensures forall x :: x in docs ==>
      IsDocLink(x, domain) && x in parent' && parent'[x] in visited + {url} && LinksTo(web, parent'[x], x, lib)
  {
    parent' := map x | x in docs :: if x in docs0 then parent[x] else url;
    forall x | x in docs && x !in docs0 ensures LinksTo(web, url, x, lib) {
      assert Links(web, url, lib)[source[x]] == Some(x);
    }
  }

  /** After the anchor loop of `url`, while fewer than `limit` doc links are known, every visited
      page is covered. */
  lemma HtmlCovered(web: Web, lib: UrlLib, domain: string, visited: set<string>, url: string,
                    docs0: set<string>, docs: set<string>, limit: int)
    requires PageOk(web, url) && docs0 <= docs
    requires |docs0| < limit ==> forall p :: p in visited ==> PageCovered(web, p, lib, domain, visited, docs0)
    requires |docs| < limit ==> forall j :: 0 <= j < |Links(web, url, lib)| ==>
      Covered(Links(web, url, lib)[j], domain, visited + {url}, docs)
    ensures |docs| < limit ==> forall p :: p in visited + {url} ==> PageCovered(web, p, lib, domain, visited + {url}, docs)
  {
    if |docs| < limit {
      SubsetCard(docs0, docs);
      forall p | p in visited + {url} ensures PageCovered(web, p, lib, domain, visited + {url}, docs) {
        if p != url {
          PageCoveredGrows(web, p, lib, domain, visited, docs0, visited + {url}, docs);
        }
      }
    }
  }

  /** A page that is not HTML is covered at once, and the other visited pages stay covered. */
  lemma AfterSkip(web: Web, lib: UrlLib, domain: string, visited: set<string>, url: string, docs: set<string>, limit: int)
    requires !PageOk(web, url)
    requires |docs| < limit ==> forall p :: p in visited ==> PageCovered(web, p, lib, domain, visited, docs)
    ensures |docs| < limit ==> forall p :: p in visited + {url} ==> PageCovered(web, p, lib, domain, visited + {url}, docs)
  {
    if |docs| < limit {
      forall p | p in visited + {url} ensures PageCovered(web, p, lib, domain, visited + {url}, docs) {
        if p != url {
          PageCoveredGrows(web, p, lib, domain, visited, docs, visited + {url}, docs);
        }
      }
    }
  }

}
