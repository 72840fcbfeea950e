/**
 * `extract_html_title_and_paragraphs` (tools/unifero.py): the title, the favicon,
 * the preview image and the paragraph list of a fetched page.
 *
 * Each step is a specification function over the parsed `Document` and a method
 * that runs the source's loop and is proved to compute that function.
 */
module Extract {
  import opened Wrappers
  import opened Text
  import opened Html
  import opened Urls

  /** The stripped, non-empty strings that `get_text(strip=True)` keeps. */
  function StrippedStrings(strings: seq<string>): (r: seq<string>)
    ensures |r| <= |strings|
    decreases |strings|
  {
    if strings == [] then []
    else
      var s := Strip(strings[0]);
      (if s == "" then [] else [s]) + StrippedStrings(strings[1..])
  }

  /** `tag.get_text(" ", strip=True)`. */
  function SpacedText(strings: seq<string>): string {
    Join(" ", StrippedStrings(strings))
  }

  /** `tag.get_text(strip=True)`. */
  function InlineText(strings: seq<string>): string {
    Join("", StrippedStrings(strings))
  }

  /** `tag.get_text(separator="\n", strip=False)`. */
  function CodeText(strings: seq<string>): string {
    Join("\n", strings)
  }

  /** The page title: the text of the first `<title>` tag, `None` without one. */
  function Title(d: Document): Option<string> {
    if d.title.Some? then Some(SpacedText(d.title.value)) else None
  }

  // ---------------------------------------------------------------- favicon

  /** Some lower-cased `rel` token contains `icon` (false for an empty or absent `rel`). */
  predicate HasIconRel(rel: seq<string>)
    decreases |rel|
  {
    rel != [] && (Contains(ToLower(rel[0]), "icon") || HasIconRel(rel[1..]))
  }

  /** A `<link>` with an `href` attribute whose `rel` names an icon. */
  predicate IsIconLink(l: LinkTag) {
    l.href.Some? && HasIconRel(l.rel)
  }

  /** An icon link whose `href` normalises to a usable (truthy) URL. */
  predicate GoodIcon(l: LinkTag, base: Option<string>, lib: UrlLib) {
    IsIconLink(l) && Truthy(NormalizeUrl(l.href.value, base, lib))
  }

  /**
   * The favicon loop from `current` on: each icon link overwrites the favicon
   * with its normalised href, and the loop breaks at the first truthy one.
   */
  function FaviconFrom(links: seq<LinkTag>, base: Option<string>, lib: UrlLib, current: Option<string>): Option<string>
    decreases |links|
  {
    if links == [] then current
    else if !IsIconLink(links[0]) then FaviconFrom(links[1..], base, lib, current)
    else
      var f := NormalizeUrl(links[0].href.value, base, lib);
      if Truthy(f) then f else FaviconFrom(links[1..], base, lib, f)
  }

  function Favicon(links: seq<LinkTag>, base: Option<string>, lib: UrlLib): Option<string> {
    FaviconFrom(links, base, lib, None)
  }

  lemma {:induction false} FaviconFromFirst(links: seq<LinkTag>, base: Option<string>, lib: UrlLib,
                                            current: Option<string>, i: nat)
    requires i < |links| && GoodIcon(links[i], base, lib)
    requires forall j :: 0 <= j < i ==> !GoodIcon(links[j], base, lib)
    ensures FaviconFrom(links, base, lib, current) == NormalizeUrl(links[i].href.value, base, lib)
    decreases i
  {
    if i > 0 {
      var next := FaviconSkip(links, base, lib, current);
      forall j | 0 <= j < i - 1 ensures !GoodIcon(links[1..][j], base, lib) {
        assert links[1..][j] == links[j + 1];
      }
      FaviconFromFirst(links[1..], base, lib, next, i - 1);
    } else {
      FaviconHit(links, base, lib, current);
    }
  }

  /** A first link that is not a usable icon hands the loop on with the favicon it leaves behind. */
  lemma FaviconSkip(links: seq<LinkTag>, base: Option<string>, lib: UrlLib, current: Option<string>)
    returns (next: Option<string>)
    requires links != [] && !GoodIcon(links[0], base, lib)
    ensures next == if IsIconLink(links[0]) then NormalizeUrl(links[0].href.value, base, lib) else current
    ensures FaviconFrom(links, base, lib, current) == FaviconFrom(links[1..], base, lib, next)
  {
    next := if IsIconLink(links[0]) then NormalizeUrl(links[0].href.value, base, lib) else current;
  }

  /** A usable first icon ends the loop with its normalised href. */
  lemma FaviconHit(links: seq<LinkTag>, base: Option<string>, lib: UrlLib, current: Option<string>)
    requires links != [] && GoodIcon(links[0], base, lib)
    ensures FaviconFrom(links, base, lib, current) == NormalizeUrl(links[0].href.value, base, lib)
  {
  }

  /** The favicon is the normalised href of the first icon link whose href normalises to a truthy URL. */
  lemma FaviconIsFirstGoodIcon(links: seq<LinkTag>, base: Option<string>, lib: UrlLib, i: nat)
    requires i < |links| && GoodIcon(links[i], base, lib)
    requires forall j :: 0 <= j < i ==> !GoodIcon(links[j], base, lib)
    ensures Favicon(links, base, lib) == NormalizeUrl(links[i].href.value, base, lib)
    ensures Truthy(Favicon(links, base, lib))
  {
    FaviconFromFirst(links, base, lib, None, i);
  }

  lemma {:induction false} FaviconFromNone(links: seq<LinkTag>, base: Option<string>, lib: UrlLib, current: Option<string>)
    requires !Truthy(current)
    requires forall j :: 0 <= j < |links| ==> !GoodIcon(links[j], base, lib)
    ensures !Truthy(FaviconFrom(links, base, lib, current))
    decreases |links|
  {
    if links != [] {
      var next := FaviconSkip(links, base, lib, current);
      forall j | 0 <= j < |links| - 1 ensures !GoodIcon(links[1..][j], base, lib) {
        assert links[1..][j] == links[j + 1];
      }
      FaviconFromNone(links[1..], base, lib, next);
    }
  }

  /** Without a usable icon link the favicon is `None` or empty. */
  lemma FaviconWithoutIcon(links: seq<LinkTag>, base: Option<string>, lib: UrlLib)
    requires forall j :: 0 <= j < |links| ==> !GoodIcon(links[j], base, lib)
    ensures !Truthy(Favicon(links, base, lib))
  {
    FaviconFromNone(links, base, lib, None);
  }

  /** The favicon loop of `extract_html_title_and_paragraphs`, with its `break`. */
  method FindFavicon(links: seq<LinkTag>, base: Option<string>, lib: UrlLib) returns (favicon: Option<string>)
    ensures favicon == Favicon(links, base, lib)
  {
    favicon := None;
    var i := 0;
    while i < |links|
      invariant 0 <= i <= |links|
      invariant !Truthy(favicon)
      invariant FaviconFrom(links[i..], base, lib, favicon) == Favicon(links, base, lib)
    {
      assert links[i..][1..] == links[i + 1..];
      var link := links[i];
      if IsIconLink(link) {
        favicon := NormalizeUrl(link.href.value, base, lib);
        if Truthy(favicon) {
          break;
        }
      }
      i := i + 1;
    }
  }

  // ---------------------------------------------------------------- preview image

  /** The first `<meta>` whose `property` (or, with `byName`, whose `name`) is `key`;
      `|metas|` when there is none. */
  function FirstMeta(metas: seq<MetaTag>, key: string, byName: bool): (i: nat)
    ensures i <= |metas|
    ensures i < |metas| ==> (if byName then metas[i].name else metas[i].property) == Some(key)
    ensures forall j :: 0 <= j < i ==> (if byName then metas[j].name else metas[j].property) != Some(key)
    decreases |metas|
  {
    if metas == [] then 0
    else if (if byName then metas[0].name else metas[0].property) == Some(key) then 0
    else 1 + FirstMeta(metas[1..], key, byName)
  }

  /** No tag before index `i` has `key` as its `property` (or, with `byName`, as its `name`). */
  predicate NoneBefore(metas: seq<MetaTag>, i: nat, key: string, byName: bool)
    requires i <= |metas|
  {
    forall j :: 0 <= j < i ==> (if byName then metas[j].name else metas[j].property) != Some(key)
  }

  /** `soup.find("meta", property=key) or soup.find("meta", attrs={"name": key})`: the first tag whose
      `property` is `key`, and only when there is none, the first tag whose `name` is `key`. */
  function FindMeta(metas: seq<MetaTag>, key: string): (r: Option<MetaTag>)
    ensures r.Some? ==> r.value in metas && (r.value.property == Some(key) || r.value.name == Some(key))
    ensures r.None? <==> forall m :: m in metas ==> m.property != Some(key) && m.name != Some(key)
    ensures forall i :: 0 <= i < |metas| && metas[i].property == Some(key) && NoneBefore(metas, i, key, false) ==>
              r == Some(metas[i])
    ensures (forall m :: m in metas ==> m.property != Some(key)) ==>
      forall i :: 0 <= i < |metas| && metas[i].name == Some(key) && NoneBefore(metas, i, key, true) ==>
        r == Some(metas[i])
  {
    var i := FirstMeta(metas, key, false);
    if i < |metas| then Some(metas[i])
    else
      var k := FirstMeta(metas, key, true);
      if k < |metas| then Some(metas[k]) else None
  }

  /** The tag was found and has a non-empty `content`. */
  predicate HasContent(m: Option<MetaTag>) {
    m.Some? && Truthy(m.value.content)
  }

  /** `og_image`: the normalised `og:image` content, else the normalised `twitter:image` content, else `None`. */
  function PreviewImage(metas: seq<MetaTag>, base: Option<string>, lib: UrlLib): Option<string> {
    var og := FindMeta(metas, "og:image");
    if HasContent(og) then NormalizeUrl(og.value.content.value, base, lib)
    else
      var tw := FindMeta(metas, "twitter:image");
      if HasContent(tw) then NormalizeUrl(tw.value.content.value, base, lib)
      else None
  }

  /** The preview image comes from a tag named `og:image` or `twitter:image` with non-empty content.
      The `og:image` tag found wins when it has content; otherwise the `twitter:image` tag found is used
      when it has content; otherwise there is no preview image. */
  lemma PreviewImageSource(metas: seq<MetaTag>, base: Option<string>, lib: UrlLib)
    ensures PreviewImage(metas, base, lib).Some? ==>
      exists m :: m in metas && m.content.Some? && m.content.value != ""
        && (m.property == Some("og:image") || m.name == Some("og:image")
            || m.property == Some("twitter:image") || m.name == Some("twitter:image"))
        && PreviewImage(metas, base, lib) == NormalizeUrl(m.content.value, base, lib)
    ensures HasContent(FindMeta(metas, "og:image")) ==>
      PreviewImage(metas, base, lib) == NormalizeUrl(FindMeta(metas, "og:image").value.content.value, base, lib)
    ensures (forall m :: m in metas ==>
               (m.property != Some("og:image") && m.name != Some("og:image")
                && m.property != Some("twitter:image") && m.name != Some("twitter:image")))
      ==> PreviewImage(metas, base, lib) == None
    ensures !HasContent(FindMeta(metas, "og:image")) && HasContent(FindMeta(metas, "twitter:image")) ==>
      PreviewImage(metas, base, lib) == NormalizeUrl(FindMeta(metas, "twitter:image").value.content.value, base, lib)
    ensures !HasContent(FindMeta(metas, "og:image")) && !HasContent(FindMeta(metas, "twitter:image")) ==>
      PreviewImage(metas, base, lib) == None
  {
    var og := FindMeta(metas, "og:image");
    var tw := FindMeta(metas, "twitter:image");
    if HasContent(og) {
      assert og.value in metas;
    } else if HasContent(tw) {
      assert tw.value in metas;
    }
  }

  // ---------------------------------------------------------------- paragraphs

  predicate IsCodeTag(name: string) {
    name == "pre" || name == "code"
  }

  /** The tags the paragraph loop visits besides `pre` and `code`. */
  predicate IsTextTag(name: string) {
    name in ["h1", "h2", "h3", "h4", "h5", "h6", "p", "li", "blockquote"]
  }

  /** The tags the paragraph loop visits. */
  predicate IsBlockTag(name: string) {
    IsCodeTag(name) || IsTextTag(name)
  }

  /** A fenced code block. */
  function Fence(code: string): string {
    "```\n" + code + "\n```"
  }

  /** The minimum text length: 10 for a heading (a tag name starting with `h`), 20 otherwise. */
  function MinLength(name: string): nat {
    if StartsWith(name, "h") then 10 else 20
  }

  /** What the first paragraph loop appends for one tag: nothing, a fenced code block, or its text. */
  function BlockUnit(e: Element): (r: seq<string>)
    ensures |r| <= 1
    ensures r != [] ==> IsBlockTag(e.name)
  {
    if IsCodeTag(e.name) then
      var code := Strip(CodeText(e.strings));
      if code != "" && |code| >= 10 then [Fence(code)] else []
    else if IsTextTag(e.name) then
      var text := SpacedText(e.strings);
      if text == "" || |text| < MinLength(e.name) then [] else [text]
    else []
  }

  /** The first paragraph loop: each tag's contribution, in document order. */
  function BlockParagraphs(es: seq<Element>): seq<string>
    decreases |es|
  {
    if es == [] then [] else BlockUnit(es[0]) + BlockParagraphs(es[1..])
  }

  /** A paragraph the first loop keeps: a fenced block around at least 10 characters of stripped code,
      or text of at least the tag's minimum length. */
  predicate IsBlockParagraph(p: string, e: Element) {
    (IsCodeTag(e.name) && p == Fence(Strip(CodeText(e.strings))) && |Strip(CodeText(e.strings))| >= 10)
    || (IsTextTag(e.name) && !IsCodeTag(e.name) && p == SpacedText(e.strings) && |p| >= MinLength(e.name))
  }

  /** A tag contributes exactly when its stripped text passes its threshold. */
  lemma BlockUnitKeeps(e: Element)
    ensures BlockUnit(e) != [] <==> exists p :: IsBlockParagraph(p, e)
    ensures forall p :: p in BlockUnit(e) ==> IsBlockParagraph(p, e) && |p| >= 10
  {
    if IsCodeTag(e.name) {
      var code := Strip(CodeText(e.strings));
      CodeUnitKeeps(e, code);
      if |code| >= 10 {
        assert IsBlockParagraph(Fence(code), e);
      }
    } else if IsTextTag(e.name) {
      var text := SpacedText(e.strings);
      TextUnitKeeps(e, text);
      if |text| >= MinLength(e.name) {
        assert IsBlockParagraph(text, e);
      }
    } else {
      assert forall p :: !IsBlockParagraph(p, e);
    }
  }

  /** A `pre` or `code` tag: the fenced stripped code, when it has at least 10 characters. */
  lemma CodeUnitKeeps(e: Element, code: string)
    requires IsCodeTag(e.name) && code == Strip(CodeText(e.strings))
    ensures BlockUnit(e) == (if |code| >= 10 then [Fence(code)] else [])
    ensures forall p :: IsBlockParagraph(p, e) <==> |code| >= 10 && p == Fence(code)
    ensures |code| >= 10 ==> |Fence(code)| >= 10
  {
  }

  /** Any other visited tag: its text, when it reaches the tag's minimum length. */
  lemma TextUnitKeeps(e: Element, text: string)
    requires !IsCodeTag(e.name) && IsTextTag(e.name) && text == SpacedText(e.strings)
    ensures BlockUnit(e) == (if |text| >= MinLength(e.name) then [text] else [])
    ensures forall p :: IsBlockParagraph(p, e) <==> |text| >= MinLength(e.name) && p == text
    ensures MinLength(e.name) >= 10
  {
  }

  /** Document order: the paragraphs of two consecutive runs of tags are the paragraphs of each, concatenated. */
  lemma {:induction false} BlockParagraphsAppend(a: seq<Element>, b: seq<Element>)
    ensures BlockParagraphs(a + b) == BlockParagraphs(a) + BlockParagraphs(b)
    decreases |a|
  {
    if a == [] {
      assert a + b == b;
    } else {
      assert (a + b)[1..] == a[1..] + b;
      BlockParagraphsAppend(a[1..], b);
    }
  }

  /** Every paragraph of the first loop is at least 10 characters long and comes from a tag that passes. */
  lemma {:induction false} BlockParagraphsShape(es: seq<Element>)
    ensures forall p :: p in BlockParagraphs(es) ==> |p| >= 10 && exists e :: e in es && IsBlockParagraph(p, e)
    decreases |es|
  {
    if es != [] {
      BlockUnitKeeps(es[0]);
      BlockParagraphsShape(es[1..]);
      forall p | p in BlockParagraphs(es)
        ensures |p| >= 10 && exists e :: e in es && IsBlockParagraph(p, e)
      {
        if p in BlockUnit(es[0]) {
          assert IsBlockParagraph(p, es[0]);
        } else {
          assert p in BlockParagraphs(es[1..]);
          var e :| e in es[1..] && IsBlockParagraph(p, e);
          assert e in es;
        }
      }
    }
  }

  /** `p.replace('```\n', '').replace('\n```', '')`. */
  function Unfence(p: string): string {
    ReplaceAll(ReplaceAll(p, "```\n", ""), "\n```", "")
  }

  function UnfenceAll(ps: seq<string>): (r: seq<string>)
    ensures |r| == |ps|
    ensures forall i :: 0 <= i < |ps| ==> r[i] == Unfence(ps[i])
    decreases |ps|
  {
    if ps == [] then [] else [Unfence(ps[0])] + UnfenceAll(ps[1..])
  }

  /** A `code` tag that is not directly inside a `pre`. */
  predicate IsInlineCodeTag(e: Element) {
    e.name == "code" && e.parent.Some? && e.parent.value != "pre"
  }

  /** The second loop for one tag: inline code of at least 20 characters that equals no
      unfenced paragraph so far is appended in backticks. */
  function InlineStep(e: Element, ps: seq<string>): seq<string> {
    if IsInlineCodeTag(e) then
      var code := InlineText(e.strings);
      if code != "" && |code| >= 20 && code !in UnfenceAll(ps) then ps + ["`" + code + "`"] else ps
    else ps
  }

  /** An appended inline code paragraph: backticks around at least 20 characters. */
  predicate IsInlineCode(p: string) {
    |p| >= 22 && p[0] == '`' && p[|p| - 1] == '`'
  }

  /** The second loop over the remaining tags, after the paragraphs `ps`: it only appends backticked code. */
  function InlineCodePass(es: seq<Element>, ps: seq<string>): (r: seq<string>)
    ensures |ps| <= |r| && r[..|ps|] == ps
    ensures forall k :: |ps| <= k < |r| ==> IsInlineCode(r[k])
    decreases |es|
  {
    if es == [] then ps
    else
      var next := InlineStep(es[0], ps);
      InlineStepExtends(es[0], ps);
      var r := InlineCodePass(es[1..], next);
      assert r[..|ps|] == r[..|next|][..|ps|];
      assert forall k :: |ps| <= k < |next| ==> r[k] == next[k];
      r
  }

  /** One step of the second loop keeps the paragraphs so far and appends at most one inline code paragraph. */
  lemma InlineStepExtends(e: Element, ps: seq<string>)
    ensures |ps| <= |InlineStep(e, ps)| <= |ps| + 1 && InlineStep(e, ps)[..|ps|] == ps
    ensures forall k :: |ps| <= k < |InlineStep(e, ps)| ==> IsInlineCode(InlineStep(e, ps)[k])
  {
    var next := InlineStep(e, ps);
    if next != ps {
      var p := "`" + InlineText(e.strings) + "`";
      assert next == ps + [p];
      assert next[..|ps|] == ps;
      assert next[|ps|] == p && p[0] == '`' && p[|p| - 1] == '`';
    }
  }

  /** The page's paragraphs: the first loop's, then the inline code of the second loop. */
  function Paragraphs(es: seq<Element>): seq<string> {
    InlineCodePass(es, BlockParagraphs(es))
  }

  /** An inline code tag is added only when its text is new: it is appended exactly when the
      backtick loop sees text of at least 20 characters that matches no unfenced paragraph so far. */
  lemma InlineStepAppends(e: Element, ps: seq<string>)
    ensures InlineStep(e, ps) != ps <==>
      IsInlineCodeTag(e) && |InlineText(e.strings)| >= 20
      && forall i :: 0 <= i < |ps| ==> Unfence(ps[i]) != InlineText(e.strings)
    ensures InlineStep(e, ps) != ps ==> InlineStep(e, ps) == ps + ["`" + InlineText(e.strings) + "`"]
  {
    var u := UnfenceAll(ps);
    if IsInlineCodeTag(e) && |InlineText(e.strings)| >= 20 {
      if InlineText(e.strings) in u {
        var i :| 0 <= i < |u| && u[i] == InlineText(e.strings);
        assert Unfence(ps[i]) == InlineText(e.strings);
      }
      assert |InlineStep(e, ps)| == |ps| || InlineStep(e, ps) == ps + ["`" + InlineText(e.strings) + "`"];
    }
  }

  /** The body of the `find_all` loop for one tag. */
  method KeepBlock(tag: Element) returns (unit: seq<string>)
    ensures unit == BlockUnit(tag)
  {
    unit := [];
    if IsCodeTag(tag.name) {
      var code := Strip(CodeText(tag.strings));
      if code != "" && |code| >= 10 {
        unit := [Fence(code)];
      }
    } else if IsTextTag(tag.name) {
      var text := SpacedText(tag.strings);
      if text != "" && |text| >= MinLength(tag.name) {
        unit := [text];
      }
    }
  }

  /** The `find_all` loop of `extract_html_title_and_paragraphs`. */
  method CollectBlocks(es: seq<Element>) returns (paragraphs: seq<string>)
    ensures paragraphs == BlockParagraphs(es)
  {
    paragraphs := [];
    for i := 0 to |es|
      invariant paragraphs == BlockParagraphs(es[..i])
    {
      var unit := KeepBlock(es[i]);
      BlockParagraphsSnoc(es, i, unit);
      paragraphs := paragraphs + unit;
    }
    assert es[..|es|] == es;
  }

  /** One step of the first paragraph loop: the tag at `i` adds its unit after those before it. */
  lemma BlockParagraphsSnoc(es: seq<Element>, i: int, unit: seq<string>)
    requires 0 <= i < |es| && unit == BlockUnit(es[i])
    ensures BlockParagraphs(es[..i + 1]) == BlockParagraphs(es[..i]) + unit
  {
    assert es[..i + 1] == es[..i] + [es[i]];
    BlockParagraphsAppend(es[..i], [es[i]]);
    assert [es[i]][1..] == [];
  }

  /** The loop over `code` tags that appends inline code to the paragraphs found so far. */
  method AppendInlineCode(es: seq<Element>, blocks: seq<string>) returns (paragraphs: seq<string>)
    ensures paragraphs == InlineCodePass(es, blocks)
  {
    paragraphs := blocks;
    for i := 0 to |es|
      invariant InlineCodePass(es[i..], paragraphs) == InlineCodePass(es, blocks)
    {
      assert es[i..][1..] == es[i + 1..];
      var tag := es[i];
      if IsInlineCodeTag(tag) {
        var code := InlineText(tag.strings);
        if code != "" && |code| >= 20 && code !in UnfenceAll(paragraphs) {
          paragraphs := paragraphs + ["`" + code + "`"];
        }
      }
    }
    assert es[|es|..] == [];
  }

  method ExtractParagraphs(es: seq<Element>) returns (paragraphs: seq<string>)
    ensures paragraphs == Paragraphs(es)
  {
    var blocks := CollectBlocks(es);
    paragraphs := AppendInlineCode(es, blocks);
  }

  /** What `extract_html_title_and_paragraphs` returns. */
  datatype Page = Page(title: Option<string>, paragraphs: seq<string>, favicon: Option<string>, previewImage: Option<string>)

  /** The page read from a response, with the response's final URL as the base for relative links. */
  function PageOf(resp: Response, lib: UrlLib): Page {
    var base := Some(resp.finalUrl);
    Page(Title(resp.body), Paragraphs(resp.body.elements), Favicon(resp.body.links, base, lib),
         PreviewImage(resp.body.metas, base, lib))
  }

  method ExtractPage(resp: Response, lib: UrlLib) returns (page: Page)
    ensures page == PageOf(resp, lib)
  {
    var base := Some(resp.finalUrl);
    var title := Title(resp.body);
    var favicon := FindFavicon(resp.body.links, base, lib);
    var image := PreviewImage(resp.body.metas, base, lib);
    var paragraphs := ExtractParagraphs(resp.body.elements);
    page := Page(title, paragraphs, favicon, image);
  }
}
