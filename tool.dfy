/**
 * `UniferoTool.process_request` (tools/unifero.py): read the parameter dictionary,
 * apply the defaults and conversions of the chosen mode, and run the deep search or
 * the documentation fetch. The tool object has no state, so the operation is a
 * module-level method.
 */
module Tool {
  import opened Wrappers
  import opened Text
  import opened Html
  import opened Urls
  import opened Search
  import opened Crawl
  import opened Docs

  /** One entry of the parameter dictionary: missing, present as `None`, or present with a value. */
  datatype Field<T> = Absent | Null | Given(value: T)

  /** The keys `process_request` reads. */
  datatype Params = Params(mode: Field<string>, query: Field<string>, url: Field<string>,
                           limit: Field<int>, snippetLen: Field<int>, contentLen: Field<int>,
                           includeContent: Field<bool>, contentLimit: Field<int>)

  /** `ValueError(message)`, or the `TypeError` of `int(None)`. */
  datatype Error = ValueError(message: string) | TypeError

  const QueryRequired := "'query' is required for search mode"
  const UrlRequired := "'url' is required for docs mode"
  const InvalidMode := "Invalid mode. Use 'search' or 'docs'."

  /** The call `process_request` makes, with its arguments after defaults and conversions. */
  datatype Request =
    | SearchRequest(query: string, limit: int, snippetLen: int, contentLen: Option<int>)
    | DocsRequest(url: string, limit: int, includeContent: bool, contentLimit: Option<int>)

  datatype Response = SearchResult(search: SearchResponse) | DocsResult(docs: DocsResponse)

  /** `params.get(key)` of a string entry: truthy exactly when present with a non-empty string. */
  predicate TruthyField(f: Field<string>) {
    f.Given? && f.value != ""
  }

  /** `int(params.get(key, default))`: `int(None)` raises `TypeError`. */
  function IntField(f: Field<int>, default: int): Result<int, Error> {
    match f
    case Absent => Success(default)
    case Null => Failure(TypeError)
    case Given(n) => Success(n)
  }

  /** `params.get(key, default)` followed by `int(...)` unless it is `None`. */
  function OptionalIntField(f: Field<int>, default: Option<int>): Option<int> {
    match f
    case Absent => default
    case Null => None
    case Given(n) => Some(n)
  }

  /** `bool(params.get(key, default))`. */
  function BoolField(f: Field<bool>, default: bool): bool {
    match f
    case Absent => default
    case Null => false
    case Given(b) => b
  }

  /** The mode, defaulting to `"search"`; `None` matches neither mode. */
  function ModeOf(f: Field<string>): Option<string> {
    match f
    case Absent => Some("search")
    case Null => None
    case Given(m) => Some(m)
  }

  /** The request `process_request` makes for `params`, or the exception it raises first. */
  function ResolveRequest(p: Params): Result<Request, Error> {
    var mode := ModeOf(p.mode);
    if mode == Some("search") then
      if !TruthyField(p.query) then Failure(ValueError(QueryRequired))
      else if IntField(p.limit, 5).Failure? || IntField(p.snippetLen, 300).Failure? then Failure(TypeError)
      else Success(SearchRequest(p.query.value, IntField(p.limit, 5).value, IntField(p.snippetLen, 300).value,
                                 OptionalIntField(p.contentLen, Some(2000))))
    else if mode == Some("docs") then
      if !TruthyField(p.url) then Failure(ValueError(UrlRequired))
      else if IntField(p.limit, 10).Failure? then Failure(TypeError)
      else
        var limit := IntField(p.limit, 10).value;
        Success(DocsRequest(p.url.value, if limit > 10 then 10 else limit,
                            BoolField(p.includeContent, true), OptionalIntField(p.contentLimit, None)))
    else Failure(ValueError(InvalidMode))
  }

  /** The mode is rejected exactly when it is neither missing, `"search"` nor `"docs"`. */
  lemma InvalidModeRejected(p: Params)
    ensures ResolveRequest(p) == Failure(ValueError(InvalidMode))
            <==> !(p.mode.Absent? || p.mode == Given("search") || p.mode == Given("docs"))
  {
  }

  /** In search mode: a missing or empty query is refused before anything else; with a query, a
      `TypeError` is raised exactly when `limit` or `snippet_len` is `None`; otherwise the defaults
      are 5 results, 300-character snippets and 2000 characters of content, and a `None`
      `content_len` means no truncation. */
  lemma SearchResolution(p: Params)
    requires p.mode.Absent? || p.mode == Given("search")
    ensures !TruthyField(p.query) <==> ResolveRequest(p) == Failure(ValueError(QueryRequired))
    ensures TruthyField(p.query) ==> (ResolveRequest(p) == Failure(TypeError) <==> p.limit.Null? || p.snippetLen.Null?)
    ensures ResolveRequest(p).Success? ==>
      var r := ResolveRequest(p).value;
      && r.SearchRequest? && r.query == p.query.value && r.query != ""
      && r.limit == (if p.limit.Absent? then 5 else p.limit.value)
      && r.snippetLen == (if p.snippetLen.Absent? then 300 else p.snippetLen.value)
      && (p.contentLen.Absent? ==> r.contentLen == Some(2000))
      && (p.contentLen.Null? ==> r.contentLen == None)
      && (p.contentLen.Given? ==> r.contentLen == Some(p.contentLen.value))
  {
  }

  /** In docs mode: a missing or empty URL is refused first; with a URL, a `TypeError` is raised
      exactly when `limit` is `None`; otherwise the limit defaults to 10 and a larger one becomes 10,
      content is included unless `include_content` is false or `None`, and the content limit is the
      one given, or none. */
  lemma DocsResolution(p: Params)
    requires p.mode == Given("docs")
    ensures !TruthyField(p.url) <==> ResolveRequest(p) == Failure(ValueError(UrlRequired))
    ensures TruthyField(p.url) ==> (ResolveRequest(p) == Failure(TypeError) <==> p.limit.Null?)
    ensures ResolveRequest(p).Success? ==>
      var r := ResolveRequest(p).value;
      && r.DocsRequest? && r.url == p.url.value && r.url != ""
      && r.limit <= 10
      && (p.limit.Absent? ==> r.limit == 10)
      && (p.limit.Given? && p.limit.value <= 10 ==> r.limit == p.limit.value)
      && (p.limit.Given? && p.limit.value > 10 ==> r.limit == 10)
      && (r.includeContent <==> p.includeContent.Absent? || p.includeContent == Given(true))
      && (r.contentLimit.Some? <==> p.contentLimit.Given?)
      && (p.contentLimit.Given? ==> r.contentLimit == Some(p.contentLimit.value))
  {
  }

  /**
   * `process_request(params)`. The exception raised is the one `ResolveRequest` names; in
   * search mode the response is the deep search of the resolved request, in docs mode the
   * documentation fetch for the resolved URL, whose crawl returned `crawled` after requesting
   * `fetched`, with every guarantee of `crawl_docs`.
   */
  method ProcessRequest(p: Params, web: Web, lib: UrlLib)
    returns (r: Result<Response, Error>, ghost crawled: seq<string>, ghost fetched: seq<string>)
    ensures ResolveRequest(p).Failure? <==> r.Failure?
    ensures r.Failure? ==> r.error == ResolveRequest(p).error
    ensures r.Success? && ResolveRequest(p).value.SearchRequest? ==>
      var q := ResolveRequest(p).value;
      r.value == SearchResult(DeepSearchOf(web, q.query, q.limit, q.snippetLen, q.contentLen, lib))
    ensures r.Success? && ResolveRequest(p).value.DocsRequest? ==>
      var q := ResolveRequest(p).value;
      && IsCrawl(web, lib, q.url, q.limit, crawled, fetched)
      && r.value == DocsResult(DocsResponse(q.url, DocItems(web, DocsUrls(q.url, crawled, q.limit), q.includeContent, q.contentLimit, lib)))
  {
    crawled, fetched := [], [];
    var mode := ModeOf(p.mode);
    if mode == Some("search") {
      r := SearchBranch(p, web, lib);
    } else if mode == Some("docs") {
      r, crawled, fetched := DocsBranch(p, web, lib);
    } else {
      r := Failure(ValueError(InvalidMode));
    }
  }

  /** The search branch of `process_request`. */
  method SearchBranch(p: Params, web: Web, lib: UrlLib) returns (r: Result<Response, Error>)
    requires ModeOf(p.mode) == Some("search")
    ensures ResolveRequest(p).Failure? <==> r.Failure?
    ensures r.Failure? ==> r.error == ResolveRequest(p).error
    ensures r.Success? ==>
      var q := ResolveRequest(p).value;
      r.value == SearchResult(DeepSearchOf(web, q.query, q.limit, q.snippetLen, q.contentLen, lib))
  {
    if p.query.Absent? || p.query.Null? || p.query.value == "" {
      return Failure(ValueError(QueryRequired));
    }
    if p.limit.Null? || p.snippetLen.Null? {
      return Failure(TypeError);
    }
    var limit := if p.limit.Absent? then 5 else p.limit.value;
    var snippetLen := if p.snippetLen.Absent? then 300 else p.snippetLen.value;
    var contentLen := if p.contentLen.Absent? then Some(2000) else if p.contentLen.Null? then None else Some(p.contentLen.value);
    var resp := DeepSearch(p.query.value, limit, snippetLen, contentLen, web, lib);
    return Success(SearchResult(resp));
  }

  /** The docs branch of `process_request`. */
  method DocsBranch(p: Params, web: Web, lib: UrlLib)
    returns (r: Result<Response, Error>, ghost crawled: seq<string>, ghost fetched: seq<string>)
    requires ModeOf(p.mode) == Some("docs")
    ensures ResolveRequest(p).Failure? <==> r.Failure?
    ensures r.Failure? ==> r.error == ResolveRequest(p).error
    ensures r.Success? ==>
      var q := ResolveRequest(p).value;
      && IsCrawl(web, lib, q.url, q.limit, crawled, fetched)
      && r.value == DocsResult(DocsResponse(q.url, DocItems(web, DocsUrls(q.url, crawled, q.limit), q.includeContent, q.contentLimit, lib)))
  {
    crawled, fetched := [], [];
    if p.url.Absent? || p.url.Null? || p.url.value == "" {
      return Failure(ValueError(UrlRequired)), crawled, fetched;
    }
    if p.limit.Null? {
      return Failure(TypeError), crawled, fetched;
    }
    var limit := if p.limit.Absent? then 10 else p.limit.value;
    if limit > 10 {
      limit := 10;
    }
    var includeContent := if p.includeContent.Absent? then true else if p.includeContent.Null? then false else p.includeContent.value;
    var contentLimit := if p.contentLimit.Given? then Some(p.contentLimit.value) else None;
    var resp;
    resp, crawled, fetched := FetchDocsData(p.url.value, Some(limit), includeContent, contentLimit, web, lib);
    return Success(DocsResult(resp)), crawled, fetched;
  }
}
