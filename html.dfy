/**
 * The parsed page and the network, as values.
 *
 * An HTML document is what the core reads out of BeautifulSoup's tree: the
 * strings of the first `<title>`, every `<link>` and `<meta>` tag, every
 * `<a>` tag, all taken before boilerplate is removed, and the tags that remain
 * after `script`, `style`, `nav`, `footer`, `header`, `aside`, `svg` and
 * `noscript` subtrees are removed, in document order. Each remaining tag carries
 * the text strings below it in document order, which is what `get_text`
 * joins, and the name of its parent tag.
 *
 * The network is a map from a requested URL to the response it gets; a URL
 * that is not in the map is a request that raised (timeout, refused
 * connection, retries exhausted).
 */
module Html {
  import opened Wrappers

  /** An `<a>` tag: its `href` attribute, if present, and its class tokens. */
  datatype Anchor = Anchor(href: Option<string>, classes: seq<string>)

  /** A `<link>` tag: its `rel` tokens (an empty sequence when `rel` is absent) and its `href`. */
  datatype LinkTag = LinkTag(rel: seq<string>, href: Option<string>)

  /** A `<meta>` tag's `property`, `name` and `content` attributes. */
  datatype MetaTag = MetaTag(property: Option<string>, name: Option<string>, content: Option<string>)

  /** A tag that survives boilerplate removal: its name, its descendant text strings, its parent's name
      (`None` only for a tag without a parent). */
  datatype Element = Element(name: string, strings: seq<string>, parent: Option<string>)

  datatype Document = Document(
    title: Option<seq<string>>,
    links: seq<LinkTag>,
    metas: seq<MetaTag>,
    anchors: seq<Anchor>,
    elements: seq<Element>)

  /** An HTTP response after redirects: status, `Content-Type` header ("" when absent),
      the final URL and the parsed body. */
  datatype Response = Response(status: int, contentType: string, finalUrl: string, body: Document)

  type Web = map<string, Response>
}
