/**
 * The crawl orchestrator: dispatch on the source's mode, de-duplicate by link, filter,
 * save, and always stamp the source as checked.
 *
 * The existence check the orchestrator makes is by link alone, across all sources
 * (CrawlerService.java:78 and :110 call `existsByLink`), although the items table is
 * unique on (source_id, link) and ItemRepository declares only existsBySourceIdAndLink.
 * The model follows the calls as written.
 */
module Crawler {
  import opened Wrappers
  import opened JavaText
  import opened Libraries
  import opened Entities
  import opened Repositories
  import opened Feeds
  import opened HexFormat
  import Scraper

  // ---------------------------------------------------------------- filters

  /** (title ?? "") + " " + (content ?? "") */
  function CombinedText(title: Option<string>, content: Option<string>): (r: string)
    ensures var t := title.GetOr(""); var c := content.GetOr("");
            |r| == |t| + 1 + |c| && r[..|t|] == t && r[|t|] == ' ' && r[|t| + 1..] == c
  {
    title.GetOr("") + " " + content.GetOr("")
  }

  /** A keyword matches when its lower-case form is a substring of the lower-case text. */
  predicate KeywordHit(text: string, keyword: string, ext: Toolkit) {
    Contains(ext.toLowerCase(text), ext.toLowerCase(keyword))
  }

  /** The keyword loop: stop at the first match; a null keyword reached first throws. */
  function KeywordScan(text: string, keywords: seq<Option<string>>, ext: Toolkit): (r: Result<bool, CrawlFailure>)
    ensures r.Failure? ==> r.error == NullKeyword && exists j :: 0 <= j < |keywords| && keywords[j].None?
    ensures r == Success(true) ==>
              exists j :: 0 <= j < |keywords| && keywords[j].Some? && KeywordHit(text, keywords[j].value, ext)
    decreases |keywords|
  {
    if keywords == [] then Success(false)
    else if keywords[0].None? then Failure(NullKeyword)
    else if KeywordHit(text, keywords[0].value, ext) then Success(true)
    else
      var rest := keywords[1..];
      assert forall j :: 0 <= j < |rest| ==> rest[j] == keywords[j + 1];
      KeywordScan(text, rest, ext)
  }

  /** A pattern counts when it compiles and finds a match; a null or malformed one never does. */
  predicate RegexHit(text: string, pattern: Option<string>, ext: Toolkit) {
    pattern.Some? && ext.compiles(pattern.value) && ext.finds(pattern.value, text)
  }

  predicate AnyRegexHit(text: string, patterns: seq<Option<string>>, ext: Toolkit) {
    exists k :: 0 <= k < |patterns| && RegexHit(text, patterns[k], ext)
  }

  /** An array constrains its axis only when it is non-null and non-empty. */
  predicate Constrains(list: Option<seq<Option<string>>>) {
    list.Some? && |list.value| > 0
  }

  /** What matchesFilters returns (or throws) for a candidate. */
  function Filter(source: Source, title: Option<string>, content: Option<string>, ext: Toolkit): (r: Result<bool, CrawlFailure>)
    ensures r.Failure? ==> r.error == NullKeyword && Constrains(source.filterKeywords)
    // a candidate passes only when each constraining axis has a hit
    ensures r == Success(true) ==>
              && (Constrains(source.filterKeywords) ==>
                    exists j :: 0 <= j < |source.filterKeywords.value| && source.filterKeywords.value[j].Some? &&
                      KeywordHit(CombinedText(title, content), source.filterKeywords.value[j].value, ext))
              && (Constrains(source.filterRegex) ==> AnyRegexHit(CombinedText(title, content), source.filterRegex.value, ext))
  {
    var text := CombinedText(title, content);
    if Constrains(source.filterKeywords) && KeywordScan(text, source.filterKeywords.value, ext) != Success(true) then
      KeywordScan(text, source.filterKeywords.value, ext)
    else if Constrains(source.filterRegex) then
      Success(AnyRegexHit(text, source.filterRegex.value, ext))
    else
      Success(true)
  }

  // ---------------------------------------------------------------- snippet

  /** CrawlerService.createSnippet: "" for null or blank content, otherwise the plain text cut to 200. */
  function CreateSnippet(content: Option<string>, ext: Toolkit): (r: string)
    ensures content.None? || IsBlank(content.value) ==> r == ""
    ensures content.Some? && !IsBlank(content.value) ==> r == Scraper.Truncate(ext.text(content.value))
    ensures |r| <= Scraper.SnippetLength
  {
    if content.None? || IsBlank(content.value) then "" else Scraper.Truncate(ext.text(content.value))
  }

  // ---------------------------------------------------------------- items

  /** content ?? description */
  function ContentOrDescription(feedItem: FeedItem): (r: Option<string>)
    ensures r == feedItem.content || r == feedItem.description
    ensures feedItem.content.Some? ==> r == feedItem.content
    ensures r.None? <==> feedItem.content.None? && feedItem.description.None?
  {
    if feedItem.content.Some? then feedItem.content else feedItem.description
  }

  /** The item crawlRssFeed builds for an accepted entry. */
  function RssItem(source: Source, feedItem: FeedItem, now: Instant, ext: Toolkit): (r: Item)
    ensures r.sourceId == source.id && r.link == feedItem.link && r.title == feedItem.title
    ensures r.publishedAt == Some(feedItem.publishedDate) && r.discoveredAt == now
    ensures r.summary == CreateSnippet(ContentOrDescription(feedItem), ext) && |r.summary| <= Scraper.SnippetLength
    ensures r.contentHash == Scraper.GenerateHash(ContentOrDescription(feedItem), ext)
    ensures r.contentHash == "" <==> ContentOrDescription(feedItem).None? || IsBlank(ContentOrDescription(feedItem).value)
    ensures r.contentHash != "" ==> |r.contentHash| == 64 && IsLowerHex(r.contentHash)
  {
    var content := ContentOrDescription(feedItem);
    Item(source.id, feedItem.title, feedItem.link, CreateSnippet(content, ext),
         Scraper.GenerateHash(content, ext), Some(feedItem.publishedDate), now)
  }

  /** The item crawlHtmlPage builds: its link is the source URL; no published date. */
  function HtmlItem(source: Source, scraped: Scraper.ScrapedContent, now: Instant): (r: Item)
    ensures r.sourceId == source.id && r.link == source.url && r.title == Some(scraped.title)
    ensures r.publishedAt == None && r.discoveredAt == now
    ensures r.summary == scraped.snippet && r.contentHash == scraped.contentHash
  {
    Item(source.id, Some(scraped.title), source.url, scraped.snippet, scraped.contentHash, None, now)
  }

  // ---------------------------------------------------------------- crawl paths

  /** One path's effect: every item it saved, and what it returned or threw. */
  datatype Run = Run(saved: seq<Item>, result: Result<seq<Item>, CrawlFailure>)

  /** `items` saved and listed before `run`. */
  function Then(items: seq<Item>, run: Run): Run {
    Run(items + run.saved, if run.result.Success? then Success(items + run.result.value) else run.result)
  }

  lemma ThenNothing(run: Run)
    ensures Then([], run) == run
  {
    assert [] + run.saved == run.saved;
    if run.result.Success? {
      assert [] + run.result.value == run.result.value;
    }
  }

  lemma ThenThen(xs: seq<Item>, ys: seq<Item>, run: Run)
    ensures Then(xs, Then(ys, run)) == Then(xs + ys, run)
  {
    assert xs + (ys + run.saved) == xs + ys + run.saved;
    if run.result.Success? {
      assert xs + (ys + run.result.value) == xs + ys + run.result.value;
    }
  }

  lemma ThenStops(xs: seq<Item>, e: CrawlFailure)
    ensures Then(xs, Run([], Failure(e))) == Run(xs, Failure(e))
  {
  }

  lemma ThenFinishes(xs: seq<Item>)
    ensures Then(xs, Run([], Success([]))) == Run(xs, Success(xs))
  {
  }

  /** The entry loop of crawlRssFeed, `seen` being the links stored when an entry is reached. */
  function RssLoop(source: Source, entries: seq<FeedItem>, seen: set<string>, now: Instant, ext: Toolkit): (r: Run)
    decreases |entries|
  {
    if entries == [] then Run([], Success([]))
    else
      var entry := entries[0];
      if entry.link in seen then RssLoop(source, entries[1..], seen, now, ext)
      else
        match Filter(source, entry.title, entry.content, ext)
        case Failure(e) => Run([], Failure(e))
        case Success(accepted) =>
          if !accepted then RssLoop(source, entries[1..], seen, now, ext)
          else Then([RssItem(source, entry, now, ext)], RssLoop(source, entries[1..], seen + {entry.link}, now, ext))
  }

  /** crawlRssFeed */
  function RssPath(source: Source, seen: set<string>, now: Instant, feed: HttpResponse<FeedBody>, ext: Toolkit): (r: Run)
  {
    match FetchFeedResult(feed, now)
    case Failure(e) => Run([], Failure(e))
    case Success(entries) => RssLoop(source, entries, seen, now, ext)
  }

  /** crawlHtmlPage */
  function HtmlPath(source: Source, seen: set<string>, now: Instant, page: HttpResponse<Scraper.Document>, ext: Toolkit): (r: Run)
  {
    if source.url in seen then Run([], Success([]))
    else
      match Scraper.ScrapeResult(page, ext)
      case Failure(e) => Run([], Failure(e))
      case Success(scraped) =>
        match Filter(source, Some(scraped.title), Some(scraped.content), ext)
        case Failure(e) => Run([], Failure(e))
        case Success(accepted) =>
          if accepted then Run([HtmlItem(source, scraped, now)], Success([HtmlItem(source, scraped, now)]))
          else Run([], Success([]))
  }

  /** crawlAuto: the RSS path; on any exception, the HTML path, which sees what RSS saved. */
  function AutoPath(source: Source, seen: set<string>, now: Instant, feed: HttpResponse<FeedBody>,
                    page: HttpResponse<Scraper.Document>, ext: Toolkit): (r: Run)
  {
    var rss := RssPath(source, seen, now, feed, ext);
    if rss.result.Success? then rss
    else
      var html := HtmlPath(source, seen + LinksOf(rss.saved), now, page, ext);
      Run(rss.saved + html.saved, html.result)
  }

  /** The switch on the mode. */
  function CrawlPath(source: Source, seen: set<string>, now: Instant, feed: HttpResponse<FeedBody>,
                     page: HttpResponse<Scraper.Document>, ext: Toolkit): (r: Run)
  {
    match source.mode
    case RSS => RssPath(source, seen, now, feed, ext)
    case HTML => HtmlPath(source, seen, now, page, ext)
    case AUTO => AutoPath(source, seen, now, feed, page, ext)
  }

  lemma AutoPathFeed(source: Source, seen: set<string>, now: Instant, feed: HttpResponse<FeedBody>,
                     page: HttpResponse<Scraper.Document>, ext: Toolkit)
    requires RssPath(source, seen, now, feed, ext).result.Success?
    ensures AutoPath(source, seen, now, feed, page, ext) == RssPath(source, seen, now, feed, ext)
  {
  }

  /** After a failed RSS path and the HTML path run against the store it left, the store
      and the result are those of the AUTO path. */
  lemma AutoPathFallback(source: Source, start: seq<Item>, afterRss: seq<Item>, final: seq<Item>,
                         r: Result<seq<Item>, CrawlFailure>, now: Instant, feed: HttpResponse<FeedBody>,
                         page: HttpResponse<Scraper.Document>, ext: Toolkit)
    requires RssPath(source, LinksOf(start), now, feed, ext).result.Failure?
    requires afterRss == start + RssPath(source, LinksOf(start), now, feed, ext).saved
    requires final == afterRss + HtmlPath(source, LinksOf(afterRss), now, page, ext).saved
    requires r == HtmlPath(source, LinksOf(afterRss), now, page, ext).result
    ensures final == start + AutoPath(source, LinksOf(start), now, feed, page, ext).saved
    ensures r == AutoPath(source, LinksOf(start), now, feed, page, ext).result
  {
    var seen := LinksOf(start);
    var rss := RssPath(source, seen, now, feed, ext);
    HtmlPathAfter(source, start, rss.saved, now, page, ext);
    AutoPathUnfold(source, seen, now, feed, page, ext);
    var html := HtmlPath(source, seen + LinksOf(rss.saved), now, page, ext);
    AppendAssoc(start, rss.saved, html.saved);
  }

  /** The HTML path after `more` were saved is the HTML path with their links seen. */
  lemma HtmlPathAfter(source: Source, start: seq<Item>, more: seq<Item>, now: Instant,
                      page: HttpResponse<Scraper.Document>, ext: Toolkit)
    ensures HtmlPath(source, LinksOf(start + more), now, page, ext) == HtmlPath(source, LinksOf(start) + LinksOf(more), now, page, ext)
  {
    LinksOfAppend(start, more);
  }

  lemma AppendAssoc(xs: seq<Item>, ys: seq<Item>, zs: seq<Item>)
    ensures xs + ys + zs == xs + (ys + zs)
  {
  }

  lemma AutoPathUnfold(source: Source, seen: set<string>, now: Instant, feed: HttpResponse<FeedBody>,
                       page: HttpResponse<Scraper.Document>, ext: Toolkit)
    requires RssPath(source, seen, now, feed, ext).result.Failure?
    ensures var rss := RssPath(source, seen, now, feed, ext);
            var html := HtmlPath(source, seen + LinksOf(rss.saved), now, page, ext);
            AutoPath(source, seen, now, feed, page, ext) == Run(rss.saved + html.saved, html.result)
  {
  }

  /** crawlSource's return value: the size of the returned list, or 0 after an exception. */
  function Count(run: Run): (r: nat)
    ensures run.result.Success? ==> r == |run.result.value|
    ensures run.result.Failure? ==> r == 0
  {
    if run.result.Success? then |run.result.value| else 0
  }

  class CrawlerService {
    const ext: Toolkit
    const sourceRepository: SourceRepository
    const itemRepository: ItemRepository

    constructor (ext: Toolkit, sourceRepository: SourceRepository, itemRepository: ItemRepository)
      ensures this.ext == ext && this.sourceRepository == sourceRepository && this.itemRepository == itemRepository
    {
      this.ext := ext;
      this.sourceRepository := sourceRepository;
      this.itemRepository := itemRepository;
    }

    /**
     * crawlSource. An unknown id throws before anything is touched. Otherwise the chosen
     * path runs, the source is stamped checked at `now` and saved whatever the path did,
     * and the result is the number of items the path returned, or 0 if it threw. Items a
     * path saved before throwing stay saved. `feed` and `page` are what the feed and page
     * requests for the source URL yield.
     */
    method CrawlSource(id: SourceId, now: Instant, feed: HttpResponse<FeedBody>, page: HttpResponse<Scraper.Document>)
      returns (r: Result<nat, ServiceError>)
      requires sourceRepository.Valid()
      modifies sourceRepository, itemRepository
      ensures sourceRepository.Valid() && sourceRepository.nextId == old(sourceRepository.nextId)
      ensures id !in old(sourceRepository.sources) ==>
                r == Failure(SourceNotFound(id)) && unchanged(sourceRepository, itemRepository)
      ensures id in old(sourceRepository.sources) ==>
                var source := old(sourceRepository.sources[id]);
                var run := CrawlPath(source, LinksOf(old(itemRepository.items)), now, feed, page, ext);
                && itemRepository.items == old(itemRepository.items) + run.saved
                && sourceRepository.sources == old(sourceRepository.sources)[id := source.(lastChecked := Some(now), updatedAt := now)]
                && r == Success(Count(run))
    {
      var found := sourceRepository.FindById(id);
      if found.None? {
        return Failure(SourceNotFound(id));
      }
      var source := found.value;
      var newItems: Result<seq<Item>, CrawlFailure>;
      match source.mode {
        case RSS => newItems := CrawlRssFeed(source, now, feed);
        case HTML => newItems := CrawlHtmlPage(source, now, page);
        case AUTO => newItems := CrawlAuto(source, now, feed, page);
      }
      sourceRepository.Update(source.(lastChecked := Some(now)), now);
      if newItems.Success? {
        return Success(|newItems.value|);
      }
      return Success(0);
    }

    /** crawlRssFeed: each entry is checked against the store as it stands after the
        previous entries were saved. */
    method CrawlRssFeed(source: Source, now: Instant, feed: HttpResponse<FeedBody>) returns (r: Result<seq<Item>, CrawlFailure>)
      modifies itemRepository
      ensures var run := RssPath(source, LinksOf(old(itemRepository.items)), now, feed, ext);
              itemRepository.items == old(itemRepository.items) + run.saved && r == run.result
    {
      var feedItems := FetchFeed(feed, now);
      if feedItems.Failure? {
        return Failure(feedItems.error);
      }
      var entries := feedItems.value;
      ghost var start := itemRepository.items;
      ghost var goal := RssLoop(source, entries, LinksOf(start), now, ext);
      var newItems: seq<Item> := [];
      assert entries[0..] == entries;
      ThenNothing(goal);
      for i := 0 to |entries|
        invariant itemRepository.items == start + newItems
        invariant goal == Then(newItems, RssLoop(source, entries[i..], LinksOf(itemRepository.items), now, ext))
      {
        var feedItem := entries[i];
        ghost var seen := LinksOf(itemRepository.items);
        ghost var rest := entries[i + 1..];
        assert entries[i..][0] == feedItem && entries[i..][1..] == rest;
        var known := itemRepository.ExistsByLink(feedItem.link);
        if known {
          assert RssLoop(source, entries[i..], seen, now, ext) == RssLoop(source, rest, seen, now, ext);
        } else {
          var accepted := MatchesFilters(source, feedItem.title, feedItem.content);
          if accepted.Failure? {
            assert RssLoop(source, entries[i..], seen, now, ext) == Run([], Failure(accepted.error));
            ThenStops(newItems, accepted.error);
            return Failure(accepted.error);
          }
          if accepted.value {
            var item := RssItem(source, feedItem, now, ext);
            ghost var after := RssLoop(source, rest, seen + {feedItem.link}, now, ext);
            assert RssLoop(source, entries[i..], seen, now, ext) == Then([item], after);
            ThenThen(newItems, [item], after);
            LinksOfAppend(itemRepository.items, [item]);
            itemRepository.Save(item);
            newItems := newItems + [item];
          } else {
            assert RssLoop(source, entries[i..], seen, now, ext) == RssLoop(source, rest, seen, now, ext);
          }
        }
      }
      ThenFinishes(newItems);
      return Success(newItems);
    }

    /** crawlHtmlPage: nothing is fetched when the source URL is already a stored link. */
    method CrawlHtmlPage(source: Source, now: Instant, page: HttpResponse<Scraper.Document>) returns (r: Result<seq<Item>, CrawlFailure>)
      modifies itemRepository
      ensures var run := HtmlPath(source, LinksOf(old(itemRepository.items)), now, page, ext);
              itemRepository.items == old(itemRepository.items) + run.saved && r == run.result
    {
      var known := itemRepository.ExistsByLink(source.url);
      if known {
        return Success([]);
      }
      var scraped := Scraper.Scrape(page, ext);
      if scraped.Failure? {
        return Failure(scraped.error);
      }
      var accepted := MatchesFilters(source, Some(scraped.value.title), Some(scraped.value.content));
      if accepted.Failure? {
        return Failure(accepted.error);
      }
      if !accepted.value {
        return Success([]);
      }
      var item := HtmlItem(source, scraped.value, now);
      itemRepository.Save(item);
      return Success([item]);
    }

    /** crawlAuto */
    method CrawlAuto(source: Source, now: Instant, feed: HttpResponse<FeedBody>, page: HttpResponse<Scraper.Document>)
      returns (r: Result<seq<Item>, CrawlFailure>)
      modifies itemRepository
      ensures var run := AutoPath(source, LinksOf(old(itemRepository.items)), now, feed, page, ext);
              itemRepository.items == old(itemRepository.items) + run.saved && r == run.result
    {
      ghost var start := itemRepository.items;
      r := CrawlRssFeed(source, now, feed);
      if r.Success? {
        AutoPathFeed(source, LinksOf(start), now, feed, page, ext);
        return;
      }
      ghost var afterRss := itemRepository.items;
      r := CrawlHtmlPage(source, now, page);
      AutoPathFallback(source, start, afterRss, itemRepository.items, r, now, feed, page, ext);
    }

    /** matchesFilters: the keyword loop, then the regex loop, each stopping at its first match. */
    method MatchesFilters(source: Source, title: Option<string>, content: Option<string>) returns (r: Result<bool, CrawlFailure>)
      ensures r == Filter(source, title, content, ext)
    {
      var combinedText := CombinedText(title, content);
      if source.filterKeywords.Some? && |source.filterKeywords.value| > 0 {
        var keywords := source.filterKeywords.value;
        var matchesAny := false;
        for i := 0 to |keywords|
          invariant !matchesAny
          invariant KeywordScan(combinedText, keywords, ext) == KeywordScan(combinedText, keywords[i..], ext)
        {
          assert keywords[i..][1..] == keywords[i + 1..];
          var keyword := keywords[i];
          if keyword.None? {
            return Failure(NullKeyword);  // keyword.toLowerCase() on null
          }
          if Contains(ext.toLowerCase(combinedText), ext.toLowerCase(keyword.value)) {
            matchesAny := true;
            break;
          }
        }
        if !matchesAny {
          return Success(false);
        }
      }
      if source.filterRegex.Some? && |source.filterRegex.value| > 0 {
        var patterns := source.filterRegex.value;
        var matchesAny := false;
        for i := 0 to |patterns|
          invariant !matchesAny
          invariant forall k :: 0 <= k < i ==> !RegexHit(combinedText, patterns[k], ext)
        {
          var regex := patterns[i];
          // Pattern.compile throws on a null or malformed pattern; the exception is caught and the pattern skipped
          if regex.Some? && ext.compiles(regex.value) && ext.finds(regex.value, combinedText) {
            matchesAny := true;
            break;
          }
        }
        if !matchesAny {
          return Success(false);
        }
      }
      return Success(true);
    }
  }
}
