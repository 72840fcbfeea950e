# unifero-cli core, modelled in Dafny

unifero-cli is a command-line tool, and the library behind it, with two modes.

- **Search** sends the query to DuckDuckGo's HTML endpoint. It collects the result links, fetches each linked page and reports a title, a snippet and the assembled text content for each one.
- **Docs** crawls a documentation site breadth-first from a base URL. It collects same-host links containing `/doc`, up to a limit of at most ten, always reports the base URL, and (unless told not to) extracts each page's content.

This project models that core:
- href normalisation;
- extraction of title, favicon, preview image and paragraphs from a parsed page;
- assembly of the content text;
- DuckDuckGo link collection;
- deep search;
- the docs crawl;
- the docs result assembly;
- request dispatch in `UniferoTool.process_request`;
- the command-line validator and parameter mapper.

The project then proves what these operations promise.

Modules, one per file:

- `Wrappers` (wrappers.dfy): `Option` and `Result`, plus Python truthiness of an optional string.
- `Text` (text.dfy): the Python `str` operations the core uses, written out on `seq<char>`. These are `strip`, `startswith`, `in`, `find`, `split`, `join`, `replace`, `lower` (ASCII letters) and slicing `s[:n]` for any integer `n`.
- `Html` (html.dfy): the parsed page as a value, plus the network as a map from requested URL to response. A URL missing from the map is a request that raised.
- `Urls` (urls.dfy): `normalize_url`. It also covers the parts of `urlsplit` and `parse_qs` that `normalize_url` and the crawl depend on.
- `Extract` (extract.dfy): `extract_html_title_and_paragraphs`.
- `Content` (content.dfy): `extract_doc_content_html`.
- `Search` (search.dfy): `duckduckgo_search` and `deep_search`.
- `Crawl` (crawl.dfy): `crawl_docs`.
- `Docs` (docs.dfy): `fetch_docs_data`.
- `Tool` (tool.dfy): `UniferoTool.process_request`.
- `Cli` (cli.dfy): `validate_args` and `args_to_params` of main.py.

## How the model is built

Each loop of the source is a Dafny `method` with a `for` or `while` loop. Each method is proved to compute a specification function, and the properties are lemmas about those functions. Examples:
- `FindFavicon` computes `Favicon`;
- `CollectBlocks` computes `BlockParagraphs`;
- `FirstLoop` and `SecondLoop` compute `FirstPass` and `SecondPass`;
- `BuildItems` computes `DocItems`.

The crawl is proved differently. `CrawlDocs` keeps a loop invariant: the bookkeeping of the queue and the visited set, the bound on the doc links, a witness for every doc link, and that every fetched URL is linked from one fetched before it. Its postcondition, the predicate `IsCrawl`, states outright what the crawl guarantees, and `fetch_docs_data` and `process_request` pass it on. The anchor loop of one page is proved against the reference function `Recorded`. The link collection of `duckduckgo_search` has an independent reference definition, `Dedup` (order-preserving deduplication). Lemmas prove the two-pass loop equal to a prefix of it.

Parameters, abstractions and omissions:
- **The network** is the parameter `web: Web`. A page "answers" when its URL is in the map.
- **The parser.** BeautifulSoup's tree becomes a `Document` value:
  - the strings of the first `<title>`;
  - the `<link>`, `<meta>` and `<a>` tags;
  - the tags left after `script`, `style`, `nav`, `footer`, `header`, `aside`, `svg` and `noscript` are removed, each with its text strings and its parent's name.
- **Percent-decoding and URL joining.** `unquote` and `urljoin` are the two function fields of a `UrlLib` parameter. Every property holds whatever they compute.
- **The rest of `urllib.parse`** is written out:
  - the scheme, network location and query of `urlsplit`. Before splitting, leading characters up to U+0020 (C0 controls and space) are dropped and every tab, CR and LF is deleted, as the security fixes to `urlsplit` do; a Python whose `urlsplit` lacks those fixes would parse such links differently;
  - `parse_qs`'s first value for a key.

### Where the code differs from its stated intent

The model follows the code, and these consequences are proved or visible in the contracts:

- **Base URL placement.** `fetch_docs_data` puts the base URL first only when the crawl did not return it (tools/unifero.py:334-335), although the comment above says it is always first. `DocsUrlsShape` proves both cases.
- **Search limit.** The search limit is not capped at ten (tools/unifero.py:372). Only the docs limit is capped.
- **Truncation.** Content truncation is a plain prefix (tools/unifero.py:194), so it can cut a code fence or a heading.
- **Limits of 0 or less in `duckduckgo_search`.** The first loop appends before it compares the count with the limit, so it can return one link when `limit <= 0` (`CollectLinksNonPositiveLimit`).
- **Re-queued doc links.** The crawl appends a doc link to the queue again every time a page links to it, as long as it is unvisited, even when the link was already found.
- **Duplicate code blocks.** A `<pre><code>` block gives two fenced paragraphs, one for the `pre` tag and one for the `code` tag.

## Model

| member | source | states |
|---|---|---|
| Urls.NormalizeNone | tools/unifero.py:55-82 | `normalize_url` returns `None` exactly in three cases: an empty href; a stripped href starting with `javascript:` or `#`; or a link that is not a redirect wrapper, not protocol-relative and not http(s) when no base is given |
| Urls.NormalizeUnwrapsFirst | tools/unifero.py:63-71 | a `uddg=` redirect wrapper is unwrapped before the protocol-relative, absolute and relative cases, whatever the base |
| Urls.NormalizeProtocolRelative | tools/unifero.py:58-74 | a stripped `//host/path` link that is not a `uddg` redirect wrapper becomes `https://host/path`, whatever its query |
| Urls.NormalizeProtocolRelativeNoQuery | tools/unifero.py:58-74 | in particular every protocol-relative link without `?` becomes `https:` plus the link |
| Urls.NormalizeWebLink | tools/unifero.py:58-77 | an `http:` or `https:` link that is not a `uddg` redirect wrapper is returned stripped and otherwise unchanged, whatever its query |
| Urls.NormalizeWebLinkNoQuery | tools/unifero.py:58-77 | in particular every `http:` or `https:` link without `?` is returned stripped |
| Urls.NoQueryNoUnwrap | tools/unifero.py:66-71 | a link without `?` has an empty query and is never taken for a redirect wrapper |
| Extract.FaviconIsFirstGoodIcon | tools/unifero.py:112-123 | the favicon is the normalised href of the first `<link>` whose lower-cased `rel` contains `icon` and whose href normalises to a non-empty URL |
| Extract.FaviconWithoutIcon | tools/unifero.py:112-123 | without such a link the favicon is `None` or empty |
| Extract.FindFavicon | tools/unifero.py:112-123 | the loop with its `break` computes that favicon |
| Extract.FindMeta | tools/unifero.py:127-132 | the tag found carries the key as `property` or `name`; it is the first tag whose `property` is the key, and only when no tag has that `property`, the first tag whose `name` is the key; none is found exactly when no tag carries the key |
| Extract.PreviewImageSource | tools/unifero.py:126-134 | the preview image comes from an `og:image` or `twitter:image` tag with non-empty content. The `og:image` tag found wins when it has content; otherwise the `twitter:image` tag found gives it when that has content; otherwise it is `None` |
| Extract.BlockUnitKeeps | tools/unifero.py:142-158 | a tag gives a paragraph exactly when it passes its threshold. A `pre`/`code` tag needs at least 10 characters of stripped code and is emitted fenced. A heading needs text of length 10, any other tag length 20. Every paragraph is at least 10 characters long |
| Extract.CodeUnitKeeps | tools/unifero.py:143-148 | a `pre` or `code` tag contributes the fenced stripped code exactly when that code has at least 10 characters |
| Extract.TextUnitKeeps | tools/unifero.py:149-157 | any other visited tag contributes its space-joined text exactly when that text reaches the tag's minimum length, which is at least 10 |
| Extract.BlockParagraphsAppend | tools/unifero.py:142-158 | the paragraphs follow document order: those of two runs of tags are concatenated |
| Extract.BlockParagraphsShape | tools/unifero.py:142-158 | every paragraph of the first loop comes from a tag of the page that passes its threshold |
| Extract.KeepBlock | tools/unifero.py:143-158 | the loop body computes one tag's contribution |
| Extract.CollectBlocks | tools/unifero.py:139-158 | the first paragraph loop computes `BlockParagraphs` |
| Extract.InlineStepAppends | tools/unifero.py:161-165 | a `code` tag outside `pre` is appended in backticks exactly when its text has at least 20 characters and equals no unfenced paragraph found so far |
| Extract.InlineCodePass | tools/unifero.py:161-165 | the second loop keeps the earlier paragraphs as a prefix and only appends backticked code of at least 20 characters |
| Extract.AppendInlineCode | tools/unifero.py:161-165 | the loop over `code` tags computes `InlineCodePass` |
| Extract.ExtractParagraphs | tools/unifero.py:139-165 | both loops together compute `Paragraphs` |
| Extract.ExtractPage | tools/unifero.py:101-167 | title, paragraphs, favicon and preview image of a response, with the response's final URL as the base for relative links |
| Content.ContentLinePromotes | tools/unifero.py:184-188 | a paragraph is rewritten exactly when it matches `^[A-Z][A-Za-z0-9\-\s]{2,}$` and has at most six words, and then it becomes `\n## p\n` |
| Content.BuildContentLines | tools/unifero.py:183-188 | the loop builds one content line per paragraph, in order |
| Content.AssembleContent | tools/unifero.py:183-194 | the content lines are joined, collapsed, stripped and cut to the length, giving `ContentOf` |
| Content.CollapseNoTriple | tools/unifero.py:191 | after the `\n{3,}` substitution no three consecutive newlines remain |
| Content.CollapseFixes | tools/unifero.py:191 | the substitution changes nothing in a text without three consecutive newlines |
| Content.CollapseIdempotent | tools/unifero.py:191 | applying the substitution twice is applying it once |
| Content.ContentBounds | tools/unifero.py:190-194 | the content is a prefix of the joined, collapsed and stripped text and never has three consecutive newlines. With a non-negative length it is at most that long; without a length it is the whole text |
| Content.SingleParagraphContent | tools/unifero.py:184-194 | a single non-heading paragraph without surrounding whitespace or newline triples is the content unchanged |
| Content.DocContentSucceeds | tools/unifero.py:175-194 | extraction fails exactly when the page does not answer 200. Otherwise its paragraphs are the page's, and its content is assembled from them, within the length and free of newline triples |
| Content.ExtractDocContent | tools/unifero.py:170-194 | `extract_doc_content_html` computes `DocContentOf` |
| Search.DedupProperties | tools/unifero.py:216-235 | the reference deduplication is duplicate-free and holds only truthy candidates |
| Search.FirstPassStops | tools/unifero.py:219-226 | the first loop either returns exactly `limit` links, which are the first `limit` distinct candidates, or finishes with fewer |
| Search.SecondPassIsPrefix | tools/unifero.py:228-235 | the second loop, which checks the limit before each anchor, yields the first `limit` distinct candidates |
| Search.CollectLinksOrder | tools/unifero.py:216-237 | for `limit >= 1` the result is the first `limit` distinct normalised hrefs: result-class anchors first, then all anchors with an href, in order of first appearance |
| Search.CollectLinksProperties | tools/unifero.py:216-237 | the links are pairwise distinct, each a non-empty `normalize_url` result of an anchor; at most `limit` of them, and at most one when `limit <= 0` |
| Search.CollectLinksNonPositiveLimit | tools/unifero.py:219-226 | with `limit <= 0` a page whose single result anchor is an http(s) link that is not a `uddg` redirect wrapper, whatever its query, still yields that one link |
| Search.FirstLoop | tools/unifero.py:216-226 | the loop over result anchors computes `FirstPass`, with `seen` equal to the links' set |
| Search.SecondLoop | tools/unifero.py:228-235 | the loop over all anchors computes `SecondPass` |
| Search.DuckDuckGoSearch | tools/unifero.py:197-237 | the search yields `[]` when the request raises or the status is not 200, and otherwise the collected links cut to `limit` |
| Search.SnippetBounds | tools/unifero.py:257-262 | the snippet is a prefix of the first paragraph, at most `snippet_len` long. Without paragraphs it is the content when that fits in `snippet_len`, and its `snippet_len` prefix plus `...` when it is longer |
| Search.DeepSearchRecords | tools/unifero.py:243-273 | one record per link, in link order. A record is unfetched exactly when extraction fails; otherwise it carries the extracted title and content and the snippet derived from them |
| Search.SearchRecordFor | tools/unifero.py:248-271 | the body of the link loop computes the record of one link from its extraction: unfetched on failure, else title, snippet and content |
| Search.SearchRecordsFor | tools/unifero.py:244-271 | the loop over links computes one record per link, in order |
| Search.DeepSearch | tools/unifero.py:240-273 | the loop over links computes `DeepSearchOf` |
| Crawl.SortedList | tools/unifero.py:313 | `sorted(docs_links)`: strictly increasing in Python's string order, with the same elements |
| Crawl.AnchorStep | tools/unifero.py:300-307 | an anchor's link is recorded exactly when it normalises to a non-empty URL on the base host containing `/doc`, is unvisited, and fewer than `limit` links are known |
| Crawl.VisitPage | tools/unifero.py:300-307 | the anchor loop records and queues exactly `Recorded`: in anchor order, each truthy normalised doc link that is unvisited while fewer than `limit` links are known, a known one again. The queue grows by those links and the found set by their elements. Only unvisited doc links of the page are added, the limit holds, and below it every link of the page is covered afterwards |
| Crawl.CrawlStep | tools/unifero.py:285-310 | one pass of the `while` loop keeps the crawl invariant and either shortens the queue or visits a new URL |
| Crawl.ReachNext | tools/unifero.py:285-289 | the URL popped and fetched next is linked from a page fetched before it, unless it is the base URL fetched first |
| Crawl.CrawlDocs | tools/unifero.py:276-313 | `IsCrawl`: the result is sorted, at most `limit` long, and every link is a doc link found on a fetched HTML page. No URL is fetched twice; the base is fetched first and every other fetched URL is a result linked from a page fetched before it; nothing is fetched when `limit <= 0`. Below the limit the crawl is complete: every result was fetched, and every doc link on a fetched HTML page is a result or the base |
| Docs.ClampLimitBounds | tools/unifero.py:318-322 | a missing limit becomes 10, a larger one becomes exactly 10, and one of at most 10 is kept |
| Docs.DocsUrlsShape | tools/unifero.py:324-335 | the reported URLs are non-empty, distinct and contain the base URL. When the crawl found nothing they are just the base; otherwise they number at most `limit`. The base is put first when the crawl did not return it; otherwise the list is the crawl result. All crawled links but possibly the last are reported |
| Docs.ItemsShape | tools/unifero.py:338-358 | items follow the URLs in order. Without content an item is the URL alone. With content an item is marked failed, with `failed to fetch or parse`, exactly when the page does not answer 200; a fetched item's content is the page's assembled text within the limit |
| Docs.DocsResults | tools/unifero.py:324-358 | at least one item and at most `max(1, limit)`, with distinct URLs and one item for the base URL |
| Docs.ChooseUrls | tools/unifero.py:324-335 | the URL choice computes `DocsUrls` and gives 1 to 10 URLs including the base |
| Docs.BuildItems | tools/unifero.py:337-358 | the item loop computes `DocItems` |
| Docs.FetchDocsData | tools/unifero.py:316-359 | the response lists the items of the chosen URLs for what the crawl with the clamped limit returned, with every guarantee of `IsCrawl` carried through: 1 to 10 items, distinct URLs, one for the base URL |
| Tool.InvalidModeRejected | tools/unifero.py:366-393 | `Invalid mode` is raised exactly when the mode is present and neither `search` nor `docs` |
| Tool.SearchResolution | tools/unifero.py:368-377 | search mode refuses a missing or empty query first, and raises `TypeError` exactly when `limit` or `snippet_len` is `None`. Defaults are 5, 300 and 2000; a `None` content length means no truncation |
| Tool.DocsResolution | tools/unifero.py:379-390 | docs mode refuses a missing or empty URL first, and raises `TypeError` exactly when `limit` is `None`. The limit defaults to 10, is kept when at most 10 and becomes 10 above that; content is included unless `include_content` is false or `None`; the content limit is the given one, or none |
| Tool.SearchBranch | tools/unifero.py:368-377 | the search branch raises what `ResolveRequest` names, or returns the deep search of the resolved request |
| Tool.DocsBranch | tools/unifero.py:379-390 | the docs branch raises what `ResolveRequest` names, or returns the docs fetch of the resolved request, whose crawl meets `IsCrawl` for the resolved URL and limit |
| Tool.ProcessRequest | tools/unifero.py:365-393 | `process_request` fails exactly when `ResolveRequest` fails, with the same error, and otherwise returns the deep search or the docs fetch of the resolved request, the latter with a crawl that meets `IsCrawl` |
| Cli.ValidateArgsAccepts | main.py:136-156 | `--examples` skips every check. Otherwise each message is returned exactly when the earlier checks pass and its own fails, in source order, and no message means every check passed |
| Cli.ArgsResolve | main.py:159-178 | validated arguments map to parameters that `process_request` resolves without raising: search copies query, limit, snippet and content lengths; docs carries URL, limit, `not no_content` and the content length. `args_to_params` fails exactly when neither `--search` nor `--docs` is given |
| Cli.DocsLimitCapped | main.py:169-176 | the docs limit passed on is `min(limit, 10)`: the limit itself up to 10, and exactly 10 above |

## Left out

- Network I/O (`_build_session`, `safe_get`, `session.get`), retries, back-off and time-outs: every request is a lookup in the `web` map, and a URL absent from it is a request that raised.
- Logging.
- HTML parsing and `decompose`: the parsed page is an input value, with boilerplate tags already removed from the element list.
- `unquote` and `urljoin`: these are abstract function parameters, so no property depends on what they compute.
- `urlparse` raising `ValueError` is not modelled, in either of its causes: a malformed IPv6 network location, and a non-ASCII network location whose NFKC form contains one of `/ ? # @ :`. Both have the same consequences. In `crawl_docs` it would end the page's anchor loop through the `except` branch. In `duckduckgo_search`, in `extract_html_title_and_paragraphs` (favicon and preview image) and in `crawl_docs`'s `urlparse(base_url)` before the loop (tools/unifero.py:280) nothing catches it, so the exception would propagate and abort the whole request; the model has no such path.
- Python's full Unicode `lower()`: only ASCII letters are lowered. This matches Python for the `icon` test and for URL schemes, which are ASCII.
- `int()` and `bool()` over values of other types: parameter values are integers, booleans, strings or `None` (`Field`). `int(None)` raising `TypeError` is modelled; `int("abc")` is not.
- `UniferoTool` has no state, so `process_request` is a module-level method.
- main.py I/O: argument parsing (`create_parser`), `print_examples`, `format_output`, `write_output`, `legacy_json_mode` and `_cli_main` (stdin, environment variables, exit codes). Because `--search`, `--docs` and `--examples` are mutually exclusive in the parser, `Args` may hold combinations the parser rejects; `args_to_params` is modelled for all of them.
- api.py and the test scripts are not part of this model.
- CrawlDocs: when the limit is reached, the contract does not say which of the reachable doc links are among the results, only that each result is a genuine doc link found on a fetched page that the base URL leads to; completeness is stated for the case of fewer than `limit` results.
- CrawlDocs: the queue order is modelled in the loop but not stated in the contract, which does not say in which breadth-first order pages are fetched.
