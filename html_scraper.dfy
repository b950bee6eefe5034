/** Scraping an HTML page: title, main content, description, author, snippet and hash. */
module Scraper {
  import opened Wrappers
  import opened JavaText
  import opened HexFormat
  import opened Libraries
  import opened Entities

  /**
   * What the scraper reads from a parsed page. A meta candidate is None when no element
   * matches its selector, otherwise the element's `content` attribute ("" when absent).
   * The container fields hold the inner HTML of the first matching element.
   */
  datatype Document = Document(
    ogTitle: Option<string>,           // meta[property=og:title]
    twitterTitle: Option<string>,      // meta[name=twitter:title]
    title: string,                     // doc.title()
    ogDescription: Option<string>,     // meta[property=og:description]
    metaDescription: Option<string>,   // meta[name=description]
    articleAuthor: Option<string>,     // meta[property=article:author]
    metaAuthor: Option<string>,        // meta[name=author]
    article: Option<string>,           // first <article>
    main: Option<string>,              // first <main>
    contentContainer: Option<string>,  // first .content, .post-content, .article-content, .entry-content
    paragraphs: seq<string>,           // text() of every <p>, in document order
    bodyText: string)                  // doc.body().text()

  /** HtmlScraper.ScrapedContent */
  datatype ScrapedContent = ScrapedContent(
    title: string,
    content: string,
    contentHash: string,
    description: Option<string>,
    author: Option<string>,
    snippet: string)

  const MinParagraphLength: nat := 50
  const SnippetLength: nat := 200
  const Ellipsis: string := "..."
  const ParagraphSeparator: string := "\n\n"

  // ---------------------------------------------------------------- meta fallback chains

  /** A candidate is taken when its element exists and its value is not blank. */
  predicate Usable(candidate: Option<string>) {
    candidate.Some? && !IsBlank(candidate.value)
  }

  /** The first usable candidate, if any. */
  function FirstUsable(candidates: seq<Option<string>>): (r: Option<string>)
    ensures r.Some? ==> Usable(r) && r in candidates
    decreases |candidates|
  {
    if candidates == [] then None
    else if Usable(candidates[0]) then candidates[0]
    else FirstUsable(candidates[1..])
  }

  /** FirstUsable picks the usable candidate with the lowest index. */
  lemma {:induction false} FirstUsablePicksFirst(candidates: seq<Option<string>>, i: nat)
    requires i < |candidates| && Usable(candidates[i])
    requires forall j :: 0 <= j < i ==> !Usable(candidates[j])
    ensures FirstUsable(candidates) == candidates[i]
    decreases i
  {
    if i > 0 {
      assert !Usable(candidates[0]);
      FirstUsablePicksFirst(candidates[1..], i - 1);
    }
  }

  /** FirstUsable finds nothing exactly when no candidate is usable. */
  lemma {:induction false} FirstUsableNone(candidates: seq<Option<string>>)
    ensures FirstUsable(candidates).None? <==> forall j :: 0 <= j < |candidates| ==> !Usable(candidates[j])
    decreases |candidates|
  {
    if candidates != [] {
      FirstUsableNone(candidates[1..]);
      assert forall j :: 1 <= j < |candidates| ==> candidates[j] == candidates[1..][j - 1];
    }
  }

  /** extractTitle: og:title, then twitter:title, then the document title. */
  function ExtractTitle(doc: Document): (r: string)
    ensures r == FirstUsable([doc.ogTitle, doc.twitterTitle]).GetOr(doc.title)
  {
    if doc.ogTitle.Some? && !IsBlank(doc.ogTitle.value) then doc.ogTitle.value
    else if doc.twitterTitle.Some? && !IsBlank(doc.twitterTitle.value) then doc.twitterTitle.value
    else doc.title
  }

  /** extractMetaDescription: og:description, then meta description, then null. */
  function ExtractMetaDescription(doc: Document): (r: Option<string>)
    ensures r == FirstUsable([doc.ogDescription, doc.metaDescription])
  {
    if doc.ogDescription.Some? && !IsBlank(doc.ogDescription.value) then doc.ogDescription
    else if doc.metaDescription.Some? && !IsBlank(doc.metaDescription.value) then doc.metaDescription
    else None
  }

  /** extractAuthor: article:author, then meta author, then null. */
  function ExtractAuthor(doc: Document): (r: Option<string>)
    ensures r == FirstUsable([doc.articleAuthor, doc.metaAuthor])
  {
    if doc.articleAuthor.Some? && !IsBlank(doc.articleAuthor.value) then doc.articleAuthor
    else if doc.metaAuthor.Some? && !IsBlank(doc.metaAuthor.value) then doc.metaAuthor
    else None
  }

  // ---------------------------------------------------------------- main content

  /** The paragraphs longer than 50 characters, in document order. */
  function LongParagraphs(ps: seq<string>): (r: seq<string>)
    ensures |r| <= |ps|
    ensures forall k :: 0 <= k < |r| ==> |r[k]| > MinParagraphLength && r[k] in ps
    ensures r == [] <==> forall k :: 0 <= k < |ps| ==> |ps[k]| <= MinParagraphLength
  {
    if ps == [] then []
    else (if |ps[0]| > MinParagraphLength then [ps[0]] else []) + LongParagraphs(ps[1..])
  }

  /** Each paragraph followed by a blank line, concatenated. */
  function Block(ps: seq<string>): (r: string)
    ensures |r| >= 2 * |ps|
  {
    if ps == [] then "" else ps[0] + ParagraphSeparator + Block(ps[1..])
  }

  lemma {:induction false} LongParagraphsAppend(ps: seq<string>, p: string)
    ensures LongParagraphs(ps + [p]) == LongParagraphs(ps) + (if |p| > MinParagraphLength then [p] else [])
  {
    if ps != [] {
      assert (ps + [p])[1..] == ps[1..] + [p];
      LongParagraphsAppend(ps[1..], p);
    }
  }

  lemma {:induction false} BlockAppend(ps: seq<string>, p: string)
    ensures Block(ps + [p]) == Block(ps) + p + ParagraphSeparator
  {
    if ps != [] {
      assert (ps + [p])[1..] == ps[1..] + [p];
      BlockAppend(ps[1..], p);
    }
  }

  /** The content extractMainContent returns: the first present <article>, <main> or content
      container (present, even if empty), sanitised; otherwise the paragraph block, trimmed,
      when it is not empty; otherwise the body text. */
  function MainContent(doc: Document, ext: Toolkit): (r: string)
    // the paragraph block replaces the body text only when some paragraph is long
    ensures doc.article.None? && doc.main.None? && doc.contentContainer.None? && r != doc.bodyText ==>
              exists k :: 0 <= k < |doc.paragraphs| && |doc.paragraphs[k]| > MinParagraphLength
  {
    if doc.article.Some? then ext.clean(doc.article.value)
    else if doc.main.Some? then ext.clean(doc.main.value)
    else if doc.contentContainer.Some? then ext.clean(doc.contentContainer.value)
    else
      var block := Block(LongParagraphs(doc.paragraphs));
      if |block| > 0 then Trim(block) else doc.bodyText
  }

  /**
   * extractMainContent. In the paragraph loop `currentBlock` is never reset, so every
   * append makes it longer than `longestBlock`, which is then replaced by it: the two are
   * equal after every step, and the "longest block" is every long paragraph of the page.
   */
  method ExtractMainContent(doc: Document, ext: Toolkit) returns (r: string)
    ensures r == MainContent(doc, ext)
  {
    if doc.article.Some? {
      return ext.clean(doc.article.value);
    }
    if doc.main.Some? {
      return ext.clean(doc.main.value);
    }
    if doc.contentContainer.Some? {
      return ext.clean(doc.contentContainer.value);
    }
    var paragraphs := doc.paragraphs;
    var longestBlock: string := "";
    var currentBlock: string := "";
    for i := 0 to |paragraphs|
      invariant longestBlock == currentBlock
      invariant currentBlock == Block(LongParagraphs(paragraphs[..i]))
    {
      var text := paragraphs[i];
      assert paragraphs[..i + 1] == paragraphs[..i] + [text];
      LongParagraphsAppend(paragraphs[..i], text);
      if |text| > MinParagraphLength {
        BlockAppend(LongParagraphs(paragraphs[..i]), text);
        currentBlock := currentBlock + text + ParagraphSeparator;
        if |currentBlock| > |longestBlock| {
          longestBlock := currentBlock;
        }
      } else {
        assert LongParagraphs(paragraphs[..i + 1]) == LongParagraphs(paragraphs[..i]);
      }
    }
    assert paragraphs[..|paragraphs|] == paragraphs;
    if |longestBlock| > 0 {
      return Trim(longestBlock);
    }
    return doc.bodyText;
  }

  /** With no container element and no paragraph over 50 characters, the body text is used. */
  lemma NoLongParagraphGivesBodyText(doc: Document, ext: Toolkit)
    requires doc.article.None? && doc.main.None? && doc.contentContainer.None?
    requires forall k :: 0 <= k < |doc.paragraphs| ==> |doc.paragraphs[k]| <= MinParagraphLength
    ensures MainContent(doc, ext) == doc.bodyText
  {
  }

  /** With no container element and some paragraph over 50 characters, the trimmed block is used. */
  lemma LongParagraphGivesBlock(doc: Document, ext: Toolkit, k: nat)
    requires doc.article.None? && doc.main.None? && doc.contentContainer.None?
    requires k < |doc.paragraphs| && |doc.paragraphs[k]| > MinParagraphLength
    ensures MainContent(doc, ext) == Trim(Block(LongParagraphs(doc.paragraphs)))
  {
    var block := Block(LongParagraphs(doc.paragraphs));
    assert |LongParagraphs(doc.paragraphs)| > 0;
    assert |block| > 0;
  }

  lemma ContainsShift(prefix: string, s: string, sub: string)
    requires Contains(s, sub)
    ensures Contains(prefix + s, sub)
  {
    var i: nat :| i <= |s| && OccursAt(s, sub, i);
    assert (prefix + s)[|prefix| + i..|prefix| + i + |sub|] == s[i..i + |sub|];
    assert OccursAt(prefix + s, sub, |prefix| + i);
  }

  /** Every paragraph longer than 50 characters is part of the block. */
  lemma {:induction false} LongParagraphInBlock(ps: seq<string>, k: nat)
    requires k < |ps| && |ps[k]| > MinParagraphLength
    ensures Contains(Block(LongParagraphs(ps)), ps[k])
    decreases |ps|
  {
    var head := if |ps[0]| > MinParagraphLength then [ps[0]] else [];
    var rest := LongParagraphs(ps[1..]);
    assert LongParagraphs(ps) == head + rest;
    if k == 0 {
      var b := Block(head + rest);
      assert b == ps[0] + ParagraphSeparator + Block(rest);
      assert OccursAt(b, ps[0], 0);
    } else {
      LongParagraphInBlock(ps[1..], k - 1);
      if head == [] {
        assert head + rest == rest;
      } else {
        assert (head + rest)[1..] == rest;
        ContainsShift(ps[0] + ParagraphSeparator, Block(rest), ps[k]);
      }
    }
  }

  // ---------------------------------------------------------------- snippet and hash

  /** The 200-character cut: short text unchanged, long text cut to 197 characters and "...". */
  function Truncate(text: string): (r: string)
    ensures |r| <= SnippetLength
    ensures |text| <= SnippetLength ==> r == text
    ensures |text| > SnippetLength ==> r == text[..SnippetLength - |Ellipsis|] + Ellipsis
  {
    if |text| <= SnippetLength then text else text[..SnippetLength - |Ellipsis|] + Ellipsis
  }

  /** A snippet is its own snippet, and a text is its own snippet exactly when it is short. */
  lemma TruncateIdempotent(text: string)
    ensures Truncate(Truncate(text)) == Truncate(text)
    ensures Truncate(text) == text <==> |text| <= SnippetLength
  {
  }

  /** HtmlScraper.createSnippet: the plain text of the content, cut to 200 characters. */
  function CreateSnippet(content: string, ext: Toolkit): (r: string)
    ensures |r| <= SnippetLength
    ensures r == Truncate(ext.text(content))
  {
    Truncate(ext.text(content))
  }

  /** generateHash: "" for null or blank content, otherwise the lower-case hex SHA-256 of the
      UTF-8 bytes, without any normalisation of case or whitespace. */
  function GenerateHash(content: Option<string>, ext: Toolkit): (r: string)
    ensures r == "" <==> content.None? || IsBlank(content.value)
    ensures r != "" ==> |r| == 64 && IsLowerHex(r)
  {
    if content.None? || IsBlank(content.value) then ""
    else FormatHex(ext.sha256(Utf8(content.value)))
  }

  /** Two equal non-sentinel hashes come from equal digests of the two contents. */
  lemma HashIdentifiesDigest(a: Option<string>, b: Option<string>, ext: Toolkit)
    requires GenerateHash(a, ext) == GenerateHash(b, ext) != ""
    ensures a.Some? && b.Some? && ext.sha256(Utf8(a.value)) == ext.sha256(Utf8(b.value))
  {
    FormatHexInjective(ext.sha256(Utf8(a.value)), ext.sha256(Utf8(b.value)));
  }

  // ---------------------------------------------------------------- scrape

  /** What parseHtml computes from a page. */
  function ScrapeOf(doc: Document, ext: Toolkit): (r: ScrapedContent)
    ensures r.title == ExtractTitle(doc) && r.content == MainContent(doc, ext)
    ensures r.description == ExtractMetaDescription(doc) && r.author == ExtractAuthor(doc)
    ensures r.snippet == CreateSnippet(r.content, ext) && |r.snippet| <= SnippetLength
    ensures r.contentHash == GenerateHash(Some(r.content), ext)
    ensures r.contentHash == "" <==> IsBlank(r.content)
  {
    var content := MainContent(doc, ext);
    ScrapedContent(ExtractTitle(doc), content, GenerateHash(Some(content), ext),
                   ExtractMetaDescription(doc), ExtractAuthor(doc), CreateSnippet(content, ext))
  }

  /** What scrape yields for an HTTP outcome. */
  function ScrapeResult(response: HttpResponse<Document>, ext: Toolkit): (r: Result<ScrapedContent, CrawlFailure>)
    ensures r.Success? <==> response.Response? && response.statusCode == 200
    ensures r.Success? ==> r.value == ScrapeOf(response.body, ext)
    ensures response.ConnectionFailed? ==> r == Failure(NetworkError)
    ensures response.Response? && response.statusCode != 200 ==> r == Failure(HttpStatusError(response.statusCode))
  {
    match response
    case ConnectionFailed => Failure(NetworkError)
    case Response(status, doc) =>
      if status != 200 then Failure(HttpStatusError(status)) else Success(ScrapeOf(doc, ext))
  }

  /** parseHtml, step by step as the Java method computes it; ScrapeOf is the same result
      as a function, for use in specifications. */
  method ParseHtml(doc: Document, ext: Toolkit) returns (r: ScrapedContent)
    ensures r == ScrapeOf(doc, ext)
    ensures r.snippet == CreateSnippet(r.content, ext) && |r.snippet| <= SnippetLength
    ensures r.contentHash == GenerateHash(Some(r.content), ext)
  {
    var title := ExtractTitle(doc);
    var content := ExtractMainContent(doc, ext);
    var description := ExtractMetaDescription(doc);
    var author := ExtractAuthor(doc);
    var snippet := CreateSnippet(content, ext);
    var contentHash := GenerateHash(Some(content), ext);
    r := ScrapedContent(title, content, contentHash, description, author, snippet);
  }

  /** scrape: a non-200 status or a transport failure throws without parsing the page. The
      method follows the Java method's steps; ScrapeResult is the same outcome as a function. */
  method Scrape(response: HttpResponse<Document>, ext: Toolkit) returns (r: Result<ScrapedContent, CrawlFailure>)
    ensures response.ConnectionFailed? ==> r == Failure(NetworkError)
    ensures response.Response? && response.statusCode != 200 ==> r == Failure(HttpStatusError(response.statusCode))
    ensures response.Response? && response.statusCode == 200 ==>
              && r.Success?
              && r.value.content == MainContent(response.body, ext)
              && r.value.title == ExtractTitle(response.body)
              && r.value.snippet == CreateSnippet(r.value.content, ext)
              && r.value.contentHash == GenerateHash(Some(r.value.content), ext)
    ensures r == ScrapeResult(response, ext)
  {
    if response.ConnectionFailed? {
      return Failure(NetworkError);
    }
    if response.statusCode != 200 {
      return Failure(HttpStatusError(response.statusCode));
    }
    var scraped := ParseHtml(response.body, ext);
    return Success(scraped);
  }
}
