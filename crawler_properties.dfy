/**
 * What the crawl paths guarantee: how the filters decide, that the crawler never stores a
 * link twice, that crawling a source again saves nothing new, what AUTO does, and what the
 * returned count means.
 */
module CrawlerProperties {
  import opened Wrappers
  import opened JavaText
  import opened Libraries
  import opened Entities
  import opened Repositories
  import opened Feeds
  import Scraper
  import opened Crawler

  // ---------------------------------------------------------------- filters

  /** Keyword j matches, and no keyword before it is null. */
  predicate FirstReachedHit(text: string, keywords: seq<Option<string>>, j: int, ext: Toolkit) {
    && 0 <= j < |keywords|
    && keywords[j].Some? && KeywordHit(text, keywords[j].value, ext)
    && forall k :: 0 <= k < j ==> keywords[k].Some?
  }

  /** Keyword j is null, and every keyword before it is present and does not match. */
  predicate FirstReachedNull(text: string, keywords: seq<Option<string>>, j: int, ext: Toolkit) {
    && 0 <= j < |keywords|
    && keywords[j].None?
    && forall k :: 0 <= k < j ==> keywords[k].Some? && !KeywordHit(text, keywords[k].value, ext)
  }

  /** The keyword loop accepts exactly when a keyword matches before any null one is reached. */
  lemma {:induction false} KeywordScanAccepts(text: string, keywords: seq<Option<string>>, ext: Toolkit)
    ensures KeywordScan(text, keywords, ext) == Success(true) <==>
              exists j :: FirstReachedHit(text, keywords, j, ext)
    decreases |keywords|
  {
    if keywords == [] {
    } else if keywords[0].None? {
    } else if KeywordHit(text, keywords[0].value, ext) {
      assert FirstReachedHit(text, keywords, 0, ext);
    } else {
      var rest := keywords[1..];
      KeywordScanAccepts(text, rest, ext);
      if KeywordScan(text, rest, ext) == Success(true) {
        var j :| FirstReachedHit(text, rest, j, ext);
        assert keywords[j + 1] == rest[j];
        assert FirstReachedHit(text, keywords, j + 1, ext);
      }
      forall j | FirstReachedHit(text, keywords, j, ext) ensures FirstReachedHit(text, rest, j - 1, ext) {
        assert j != 0;
        assert forall k :: 0 <= k < j - 1 ==> rest[k] == keywords[k + 1];
      }
    }
  }

  /** The keyword loop throws exactly when a null keyword is reached before any match. */
  lemma {:induction false} KeywordScanThrows(text: string, keywords: seq<Option<string>>, ext: Toolkit)
    ensures KeywordScan(text, keywords, ext).Failure? <==> exists j :: FirstReachedNull(text, keywords, j, ext)
    ensures KeywordScan(text, keywords, ext).Failure? ==> KeywordScan(text, keywords, ext).error == NullKeyword
    decreases |keywords|
  {
    if keywords == [] {
    } else if keywords[0].None? {
      assert FirstReachedNull(text, keywords, 0, ext);
    } else if KeywordHit(text, keywords[0].value, ext) {
    } else {
      var rest := keywords[1..];
      KeywordScanThrows(text, rest, ext);
      if KeywordScan(text, rest, ext).Failure? {
        var j :| FirstReachedNull(text, rest, j, ext);
        assert keywords[j + 1] == rest[j];
        assert FirstReachedNull(text, keywords, j + 1, ext);
      }
      forall j | FirstReachedNull(text, keywords, j, ext) ensures FirstReachedNull(text, rest, j - 1, ext) {
        assert j != 0;
        assert forall k :: 0 <= k < j - 1 ==> rest[k] == keywords[k + 1];
      }
    }
  }

  /** The source has no null entry in its keyword array. */
  predicate NoNullKeywords(source: Source) {
    source.filterKeywords.Some? ==>
      forall k :: 0 <= k < |source.filterKeywords.value| ==> source.filterKeywords.value[k].Some?
  }

  /** The keyword axis: unconstrained, or some keyword occurs in the text, ignoring case. */
  predicate KeywordsAdmit(source: Source, text: string, ext: Toolkit) {
    !Constrains(source.filterKeywords) ||
    exists k :: 0 <= k < |source.filterKeywords.value| &&
      source.filterKeywords.value[k].Some? && KeywordHit(text, source.filterKeywords.value[k].value, ext)
  }

  /** The regex axis: unconstrained, or some compilable pattern finds a match. */
  predicate RegexAdmits(source: Source, text: string, ext: Toolkit) {
    !Constrains(source.filterRegex) || AnyRegexHit(text, source.filterRegex.value, ext)
  }

  /**
   * The filters throw only on a null keyword that the keyword loop reaches; without one,
   * a candidate passes exactly when both axes admit its combined text.
   */
  lemma FilterDecides(source: Source, title: Option<string>, content: Option<string>, ext: Toolkit)
    ensures var text := CombinedText(title, content);
            Filter(source, title, content, ext).Failure? <==>
              Constrains(source.filterKeywords) && exists j :: FirstReachedNull(text, source.filterKeywords.value, j, ext)
    ensures Filter(source, title, content, ext).Failure? ==> Filter(source, title, content, ext).error == NullKeyword
    ensures NoNullKeywords(source) ==>
              var text := CombinedText(title, content);
              Filter(source, title, content, ext) == Success(KeywordsAdmit(source, text, ext) && RegexAdmits(source, text, ext))
  {
    var text := CombinedText(title, content);
    if Constrains(source.filterKeywords) {
      var keywords := source.filterKeywords.value;
      KeywordScanAccepts(text, keywords, ext);
      KeywordScanThrows(text, keywords, ext);
      if NoNullKeywords(source) {
        if KeywordsAdmit(source, text, ext) {
          var k :| 0 <= k < |keywords| && keywords[k].Some? && KeywordHit(text, keywords[k].value, ext);
          assert FirstReachedHit(text, keywords, k, ext);
        } else {
          assert forall j :: !FirstReachedNull(text, keywords, j, ext);
          assert forall j :: !FirstReachedHit(text, keywords, j, ext);
          assert !KeywordScan(text, keywords, ext).Failure?;
          assert KeywordScan(text, keywords, ext) != Success(true);
          assert !KeywordScan(text, keywords, ext).value;
        }
      }
    }
  }

  // ---------------------------------------------------------------- the RSS loop

  /** Items whose links are pairwise distinct and none of which is in `seen`. */
  predicate Fresh(saved: seq<Item>, seen: set<string>) {
    DistinctLinks(saved) && forall k :: 0 <= k < |saved| ==> saved[k].link !in seen
  }

  lemma FreshPrepend(item: Item, rest: seq<Item>, seen: set<string>)
    requires item.link !in seen && Fresh(rest, seen + {item.link})
    ensures Fresh([item] + rest, seen)
  {
  }

  lemma LinksOfThen(item: Item, run: Run)
    ensures LinksOf(Then([item], run).saved) == {item.link} + LinksOf(run.saved)
  {
    LinksOfAppend([item], run.saved);
    assert [item][..0] == [];
  }

  /** One step of the RSS loop: skip the entry, throw, or save it and go on. */
  lemma RssLoopStep(source: Source, entries: seq<FeedItem>, seen: set<string>, now: Instant, ext: Toolkit)
    requires entries != []
    ensures var entry := entries[0];
            var run := RssLoop(source, entries, seen, now, ext);
            var decision := Filter(source, entry.title, entry.content, ext);
            && (entry.link in seen || decision == Success(false) ==> run == RssLoop(source, entries[1..], seen, now, ext))
            && (entry.link !in seen && decision.Failure? ==> run == Run([], Failure(decision.error)))
            && (entry.link !in seen && decision == Success(true) ==>
                  run == Then([RssItem(source, entry, now, ext)], RssLoop(source, entries[1..], seen + {entry.link}, now, ext)))
  {
  }

  /** The RSS loop saves each link at most once and never a link already stored. */
  lemma {:induction false} RssLoopFresh(source: Source, entries: seq<FeedItem>, seen: set<string>, now: Instant, ext: Toolkit)
    ensures Fresh(RssLoop(source, entries, seen, now, ext).saved, seen)
    decreases |entries|
  {
    if entries != [] {
      var entry := entries[0];
      RssLoopFresh(source, entries[1..], seen, now, ext);
      RssLoopFresh(source, entries[1..], seen + {entry.link}, now, ext);
      if entry.link !in seen && Filter(source, entry.title, entry.content, ext) == Success(true) {
        FreshPrepend(RssItem(source, entry, now, ext), RssLoop(source, entries[1..], seen + {entry.link}, now, ext).saved, seen);
      }
    }
  }

  /** When the RSS loop finishes, it returns exactly what it saved. */
  lemma {:induction false} RssLoopReturnsSaved(source: Source, entries: seq<FeedItem>, seen: set<string>, now: Instant, ext: Toolkit)
    ensures var run := RssLoop(source, entries, seen, now, ext);
            run.result.Success? ==> run.result.value == run.saved
    decreases |entries|
  {
    if entries != [] {
      RssLoopReturnsSaved(source, entries[1..], seen, now, ext);
      RssLoopReturnsSaved(source, entries[1..], seen + {entries[0].link}, now, ext);
    }
  }

  /** Without null keywords the RSS loop never throws. */
  lemma {:induction false} RssLoopCompletes(source: Source, entries: seq<FeedItem>, seen: set<string>, now: Instant, ext: Toolkit)
    requires NoNullKeywords(source)
    ensures RssLoop(source, entries, seen, now, ext).result.Success?
    decreases |entries|
  {
    if entries != [] {
      FilterDecides(source, entries[0].title, entries[0].content, ext);
      RssLoopCompletes(source, entries[1..], seen, now, ext);
      RssLoopCompletes(source, entries[1..], seen + {entries[0].link}, now, ext);
    }
  }

  /** xs is obtained from ys by deleting elements. */
  predicate Subsequence<T(==)>(xs: seq<T>, ys: seq<T>)
    decreases |ys|
  {
    xs == [] || (ys != [] && ((xs[0] == ys[0] && Subsequence(xs[1..], ys[1..])) || Subsequence(xs, ys[1..])))
  }

  /** The item every feed entry would become. */
  function RssItems(source: Source, entries: seq<FeedItem>, now: Instant, ext: Toolkit): seq<Item> {
    seq(|entries|, i requires 0 <= i < |entries| => RssItem(source, entries[i], now, ext))
  }

  /** The saved items are built from feed entries, in feed order. */
  lemma {:induction false} RssLoopInFeedOrder(source: Source, entries: seq<FeedItem>, seen: set<string>, now: Instant, ext: Toolkit)
    ensures Subsequence(RssLoop(source, entries, seen, now, ext).saved, RssItems(source, entries, now, ext))
    decreases |entries|
  {
    if entries != [] {
      var entry := entries[0];
      var all := RssItems(source, entries, now, ext);
      assert all[1..] == RssItems(source, entries[1..], now, ext);
      assert all[0] == RssItem(source, entry, now, ext);
      RssLoopStep(source, entries, seen, now, ext);
      var decision := Filter(source, entry.title, entry.content, ext);
      var saved := RssLoop(source, entries, seen, now, ext).saved;
      if entry.link in seen || decision == Success(false) {
        RssLoopInFeedOrder(source, entries[1..], seen, now, ext);
        assert saved == RssLoop(source, entries[1..], seen, now, ext).saved;
      } else if decision == Success(true) {
        RssLoopInFeedOrder(source, entries[1..], seen + {entry.link}, now, ext);
        var rest := RssLoop(source, entries[1..], seen + {entry.link}, now, ext).saved;
        assert saved == [all[0]] + rest;
        assert saved[1..] == rest;
      } else {
        assert saved == [];
      }
    }
  }

  /** `item` is what the loop builds for `entry`, whose link was not stored and which the filters accept. */
  predicate AcceptedAs(item: Item, source: Source, entry: FeedItem, seen: set<string>, now: Instant, ext: Toolkit) {
    item == RssItem(source, entry, now, ext) && entry.link !in seen &&
    Filter(source, entry.title, entry.content, ext) == Success(true)
  }

  predicate SavedFrom(item: Item, source: Source, entries: seq<FeedItem>, seen: set<string>, now: Instant, ext: Toolkit) {
    exists e :: 0 <= e < |entries| && AcceptedAs(item, source, entries[e], seen, now, ext)
  }

  lemma SavedFromLater(item: Item, source: Source, entries: seq<FeedItem>, seen: set<string>, more: set<string>, now: Instant, ext: Toolkit)
    requires entries != [] && SavedFrom(item, source, entries[1..], seen + more, now, ext)
    ensures SavedFrom(item, source, entries, seen, now, ext)
  {
  }

  /** Every saved item comes from an entry whose link was new and that the filters accepted. */
  lemma {:induction false} RssLoopSavesAccepted(source: Source, entries: seq<FeedItem>, seen: set<string>, now: Instant, ext: Toolkit)
    ensures var saved := RssLoop(source, entries, seen, now, ext).saved;
            forall k :: 0 <= k < |saved| ==> SavedFrom(saved[k], source, entries, seen, now, ext)
    decreases |entries|
  {
    if entries != [] {
      var entry := entries[0];
      var tail := entries[1..];
      RssLoopStep(source, entries, seen, now, ext);
      var saved := RssLoop(source, entries, seen, now, ext).saved;
      if entry.link !in seen && Filter(source, entry.title, entry.content, ext) == Success(true) {
        RssLoopSavesAccepted(source, tail, seen + {entry.link}, now, ext);
        var rest := RssLoop(source, tail, seen + {entry.link}, now, ext).saved;
        assert saved == [RssItem(source, entry, now, ext)] + rest;
        forall k | 0 <= k < |saved| ensures SavedFrom(saved[k], source, entries, seen, now, ext) {
          if k == 0 {
            assert AcceptedAs(saved[0], source, entries[0], seen, now, ext);
          } else {
            assert saved[k] == rest[k - 1];
            assert SavedFrom(rest[k - 1], source, tail, seen + {entry.link}, now, ext);
            SavedFromLater(saved[k], source, entries, seen, {entry.link}, now, ext);
          }
        }
      } else if entry.link in seen || Filter(source, entry.title, entry.content, ext) == Success(false) {
        RssLoopSavesAccepted(source, tail, seen, now, ext);
        var rest := RssLoop(source, tail, seen, now, ext).saved;
        assert saved == rest;
        forall k | 0 <= k < |saved| ensures SavedFrom(saved[k], source, entries, seen, now, ext) {
          assert seen + {} == seen;
          assert SavedFrom(rest[k], source, tail, seen + {}, now, ext);
          SavedFromLater(saved[k], source, entries, seen, {}, now, ext);
        }
      }
    }
  }

  // ---------------------------------------------------------------- crawling again

  /** Two views of the same feed that differ only in the dates the clock filled in. */
  predicate SameEntries(a: seq<FeedItem>, b: seq<FeedItem>) {
    |a| == |b| &&
    forall k :: 0 <= k < |a| ==> a[k].link == b[k].link && a[k].title == b[k].title && a[k].content == b[k].content
  }

  /**
   * Run the RSS loop again over the same entries, with the links the first run saved now
   * stored: nothing is saved, and it ends as the first run did (an exception again, or an
   * empty list).
   */
  lemma {:induction false} RssLoopRepeat(source: Source, entries: seq<FeedItem>, again: seq<FeedItem>, seen: set<string>,
                                          now: Instant, later: Instant, ext: Toolkit)
    requires SameEntries(entries, again)
    ensures var first := RssLoop(source, entries, seen, now, ext);
            RssLoop(source, again, seen + LinksOf(first.saved), later, ext) ==
              Run([], if first.result.Success? then Success([]) else first.result)
    decreases |entries|
  {
    if entries != [] {
      var entry := entries[0];
      assert again[0].link == entry.link && again[0].title == entry.title && again[0].content == entry.content;
      assert SameEntries(entries[1..], again[1..]);
      var first := RssLoop(source, entries, seen, now, ext);
      if entry.link in seen {
        RssLoopRepeat(source, entries[1..], again[1..], seen, now, later, ext);
      } else {
        match Filter(source, entry.title, entry.content, ext)
        case Failure(e) =>
          assert first == Run([], Failure(e));
        case Success(accepted) =>
          if accepted {
            var rest := RssLoop(source, entries[1..], seen + {entry.link}, now, ext);
            LinksOfThen(RssItem(source, entry, now, ext), rest);
            assert seen + LinksOf(first.saved) == seen + {entry.link} + LinksOf(rest.saved);
            RssLoopRepeat(source, entries[1..], again[1..], seen + {entry.link}, now, later, ext);
          } else {
            RssLoopRepeat(source, entries[1..], again[1..], seen, now, later, ext);
          }
      }
    }
  }

  /** The fields the RSS loop looks at do not depend on the clock. */
  lemma ConvertAllIgnoresClock(entries: seq<SyndEntry>, now: Instant, later: Instant)
    ensures SameEntries(ConvertAll(entries, now), ConvertAll(entries, later))
  {
  }

  lemma RssPathRepeat(source: Source, seen: set<string>, now: Instant, later: Instant, feed: HttpResponse<FeedBody>, ext: Toolkit)
    ensures var first := RssPath(source, seen, now, feed, ext);
            RssPath(source, seen + LinksOf(first.saved), later, feed, ext) ==
              Run([], if first.result.Success? then Success([]) else first.result)
  {
    if FetchFeedResult(feed, now).Success? {
      ConvertAllIgnoresClock(feed.body.entries, now, later);
      RssLoopRepeat(source, ConvertAll(feed.body.entries, now), ConvertAll(feed.body.entries, later), seen, now, later, ext);
    }
  }

  lemma HtmlPathRepeat(source: Source, seen: set<string>, now: Instant, later: Instant,
                       page: HttpResponse<Scraper.Document>, ext: Toolkit)
    ensures var first := HtmlPath(source, seen, now, page, ext);
            HtmlPath(source, seen + LinksOf(first.saved), later, page, ext) ==
              Run([], if first.result.Success? then Success([]) else first.result)
  {
  }

  /**
   * Crawling a source a second time, against the same feed and page and with the first
   * crawl's items stored, saves nothing. For an AUTO source whose keywords contain null
   * this need not hold: the items the HTML fallback stored can let the RSS loop pass the
   * entry on which it threw the first time.
   */
  lemma RecrawlSavesNothing(source: Source, seen: set<string>, now: Instant, later: Instant,
                            feed: HttpResponse<FeedBody>, page: HttpResponse<Scraper.Document>, ext: Toolkit)
    requires source.mode == AUTO ==> NoNullKeywords(source)
    ensures var first := CrawlPath(source, seen, now, feed, page, ext);
            var second := CrawlPath(source, seen + LinksOf(first.saved), later, feed, page, ext);
            second.saved == [] && Count(second) == 0
  {
    match source.mode
    case RSS => RssPathRepeat(source, seen, now, later, feed, ext);
    case HTML => HtmlPathRepeat(source, seen, now, later, page, ext);
    case AUTO =>
      if RssPath(source, seen, now, feed, ext).result.Success? {
        AutoRepeatAfterFeed(source, seen, now, later, feed, page, ext);
      } else {
        AutoRepeatAfterFallback(source, seen, now, later, feed, page, ext);
      }
  }

  /**
   * crawlSource run twice on one stored source, against the same feed and page: the second
   * call crawls the row the first one re-stamped, against the store the first one extended,
   * and saves nothing. Only for an AUTO source whose keywords contain null can it save.
   */
  lemma RecrawlSourceSavesNothing(source: Source, items: seq<Item>, now: Instant, later: Instant,
                                  feed: HttpResponse<FeedBody>, page: HttpResponse<Scraper.Document>, ext: Toolkit)
    requires source.mode == AUTO ==> NoNullKeywords(source)
    ensures var first := CrawlPath(source, LinksOf(items), now, feed, page, ext);
            var stored := source.(lastChecked := Some(now), updatedAt := now);
            var second := CrawlPath(stored, LinksOf(items + first.saved), later, feed, page, ext);
            second.saved == [] && Count(second) == 0
  {
    var first := CrawlPath(source, LinksOf(items), now, feed, page, ext);
    LinksOfAppend(items, first.saved);
    CrawlPathStamp(source, LinksOf(items + first.saved), later, feed, page, ext, Some(now), now);
    RecrawlSavesNothing(source, LinksOf(items), now, later, feed, page, ext);
  }

  /** The crawl paths do not look at when a source was last checked or updated. */
  lemma CrawlPathStamp(source: Source, seen: set<string>, now: Instant, feed: HttpResponse<FeedBody>,
                       page: HttpResponse<Scraper.Document>, ext: Toolkit, checked: Option<Instant>, updated: Instant)
    ensures CrawlPath(source.(lastChecked := checked, updatedAt := updated), seen, now, feed, page, ext) ==
              CrawlPath(source, seen, now, feed, page, ext)
  {
    match source.mode
    case RSS => RssPathStamp(source, seen, now, feed, ext, checked, updated);
    case HTML => HtmlPathStamp(source, seen, now, page, ext, checked, updated);
    case AUTO =>
      RssPathStamp(source, seen, now, feed, ext, checked, updated);
      var rss := RssPath(source, seen, now, feed, ext);
      HtmlPathStamp(source, seen + LinksOf(rss.saved), now, page, ext, checked, updated);
  }

  lemma RssPathStamp(source: Source, seen: set<string>, now: Instant, feed: HttpResponse<FeedBody>, ext: Toolkit,
                     checked: Option<Instant>, updated: Instant)
    ensures RssPath(source.(lastChecked := checked, updatedAt := updated), seen, now, feed, ext) == RssPath(source, seen, now, feed, ext)
  {
    if FetchFeedResult(feed, now).Success? {
      RssLoopStamp(source, FetchFeedResult(feed, now).value, seen, now, ext, checked, updated);
    }
  }

  lemma HtmlPathStamp(source: Source, seen: set<string>, now: Instant, page: HttpResponse<Scraper.Document>, ext: Toolkit,
                      checked: Option<Instant>, updated: Instant)
    ensures HtmlPath(source.(lastChecked := checked, updatedAt := updated), seen, now, page, ext) == HtmlPath(source, seen, now, page, ext)
  {
  }

  lemma {:induction false} RssLoopStamp(source: Source, entries: seq<FeedItem>, seen: set<string>, now: Instant, ext: Toolkit,
                                        checked: Option<Instant>, updated: Instant)
    ensures RssLoop(source.(lastChecked := checked, updatedAt := updated), entries, seen, now, ext) == RssLoop(source, entries, seen, now, ext)
    decreases |entries|
  {
    var stamped := source.(lastChecked := checked, updatedAt := updated);
    if entries != [] {
      var entry := entries[0];
      assert Filter(stamped, entry.title, entry.content, ext) == Filter(source, entry.title, entry.content, ext);
      if entry.link in seen {
        RssLoopStamp(source, entries[1..], seen, now, ext, checked, updated);
      } else {
        match Filter(source, entry.title, entry.content, ext)
        case Failure(_) =>
        case Success(accepted) =>
          if accepted {
            assert RssItem(stamped, entry, now, ext) == RssItem(source, entry, now, ext);
            RssLoopStamp(source, entries[1..], seen + {entry.link}, now, ext, checked, updated);
          } else {
            RssLoopStamp(source, entries[1..], seen, now, ext, checked, updated);
          }
      }
    }
  }

  /** AUTO again after a first RSS path that did not throw: the second RSS path saves nothing and succeeds. */
  lemma AutoRepeatAfterFeed(source: Source, seen: set<string>, now: Instant, later: Instant,
                            feed: HttpResponse<FeedBody>, page: HttpResponse<Scraper.Document>, ext: Toolkit)
    requires RssPath(source, seen, now, feed, ext).result.Success?
    ensures var first := AutoPath(source, seen, now, feed, page, ext);
            var second := AutoPath(source, seen + LinksOf(first.saved), later, feed, page, ext);
            second.saved == [] && Count(second) == 0
  {
    var rss := RssPath(source, seen, now, feed, ext);
    RssPathRepeat(source, seen, now, later, feed, ext);
    AutoPathFeed(source, seen, now, feed, page, ext);
    AutoPathFeed(source, seen + LinksOf(rss.saved), later, feed, page, ext);
  }

  /** AUTO again after a first RSS path that threw: without null keywords only a feed that
      cannot be fetched or parsed throws, so both crawls fall back to HTML, and the second
      sees the page's link stored. */
  lemma AutoRepeatAfterFallback(source: Source, seen: set<string>, now: Instant, later: Instant,
                                feed: HttpResponse<FeedBody>, page: HttpResponse<Scraper.Document>, ext: Toolkit)
    requires NoNullKeywords(source) && RssPath(source, seen, now, feed, ext).result.Failure?
    ensures var first := AutoPath(source, seen, now, feed, page, ext);
            var second := AutoPath(source, seen + LinksOf(first.saved), later, feed, page, ext);
            second.saved == [] && Count(second) == 0
  {
    var rss := RssPath(source, seen, now, feed, ext);
    RssPathReturnsSaved(source, seen, now, feed, ext);
    assert rss.saved == [] && seen + LinksOf(rss.saved) == seen;
    AutoPathUnfold(source, seen, now, feed, page, ext);
    var html := HtmlPath(source, seen, now, page, ext);
    HtmlPathRepeat(source, seen, now, later, page, ext);
    var seen2 := seen + LinksOf([] + html.saved);
    assert [] + html.saved == html.saved;
    var rss2 := RssPath(source, seen2, later, feed, ext);
    assert rss2 == Run([], Failure(FetchFeedResult(feed, later).error));
    assert seen2 + LinksOf(rss2.saved) == seen2;
    AutoPathUnfold(source, seen2, later, feed, page, ext);
  }

  // ---------------------------------------------------------------- every mode

  lemma DistinctAppend(items: seq<Item>, more: seq<Item>)
    requires DistinctLinks(items) && Fresh(more, LinksOf(items))
    ensures DistinctLinks(items + more)
  {
  }

  /** Every item belongs to the source and was discovered at `now`. */
  predicate SavedFor(items: seq<Item>, source: Source, now: Instant) {
    forall k :: 0 <= k < |items| ==> items[k].sourceId == source.id && items[k].discoveredAt == now
  }

  /** The RSS loop saves at most one item per entry, each for the crawled source, stamped now. */
  lemma {:induction false} RssLoopSavesForSource(source: Source, entries: seq<FeedItem>, seen: set<string>, now: Instant, ext: Toolkit)
    ensures var run := RssLoop(source, entries, seen, now, ext);
            |run.saved| <= |entries| && SavedFor(run.saved, source, now)
    decreases |entries|
  {
    if entries != [] {
      var entry := entries[0];
      RssLoopSavesForSource(source, entries[1..], seen, now, ext);
      RssLoopSavesForSource(source, entries[1..], seen + {entry.link}, now, ext);
      var rest := RssLoop(source, entries[1..], seen + {entry.link}, now, ext).saved;
      var all := [RssItem(source, entry, now, ext)] + rest;
      assert forall k :: 1 <= k < |all| ==> all[k] == rest[k - 1];
    }
  }

  /**
   * Whatever the mode and the responses, every saved item belongs to the crawled source and
   * was discovered at `now`; an RSS crawl saves at most one item per feed entry.
   */
  lemma CrawlPathSavesForSource(source: Source, seen: set<string>, now: Instant,
                                feed: HttpResponse<FeedBody>, page: HttpResponse<Scraper.Document>, ext: Toolkit)
    ensures SavedFor(CrawlPath(source, seen, now, feed, page, ext).saved, source, now)
    ensures source.mode == RSS && FetchFeedResult(feed, now).Success? ==>
              |CrawlPath(source, seen, now, feed, page, ext).saved| <= |FetchFeedResult(feed, now).value|
  {
    var rss := RssPath(source, seen, now, feed, ext);
    if FetchFeedResult(feed, now).Success? {
      RssLoopSavesForSource(source, FetchFeedResult(feed, now).value, seen, now, ext);
    }
    if source.mode == AUTO && rss.result.Failure? {
      AutoPathUnfold(source, seen, now, feed, page, ext);
      var html := HtmlPath(source, seen + LinksOf(rss.saved), now, page, ext);
      SavedForAppend(rss.saved, html.saved, source, now);
    }
  }

  lemma SavedForAppend(xs: seq<Item>, ys: seq<Item>, source: Source, now: Instant)
    requires SavedFor(xs, source, now) && SavedFor(ys, source, now)
    ensures SavedFor(xs + ys, source, now)
  {
    var all := xs + ys;
    assert forall k :: |xs| <= k < |all| ==> all[k] == ys[k - |xs|];
  }

  /** Whatever the mode and the responses, a crawl saves only new links, each once. */
  lemma CrawlPathFresh(source: Source, seen: set<string>, now: Instant,
                       feed: HttpResponse<FeedBody>, page: HttpResponse<Scraper.Document>, ext: Toolkit)
    ensures Fresh(CrawlPath(source, seen, now, feed, page, ext).saved, seen)
  {
    var rss := RssPath(source, seen, now, feed, ext);
    if FetchFeedResult(feed, now).Success? {
      RssLoopFresh(source, FetchFeedResult(feed, now).value, seen, now, ext);
    }
    if source.mode == AUTO && rss.result.Failure? {
      AutoPathUnfold(source, seen, now, feed, page, ext);
      var html := HtmlPath(source, seen + LinksOf(rss.saved), now, page, ext);
      FreshAppend(rss.saved, html.saved, seen);
    }
  }

  /** Fresh items followed by items fresh also against the first ones' links are fresh. */
  lemma FreshAppend(xs: seq<Item>, ys: seq<Item>, seen: set<string>)
    requires Fresh(xs, seen) && Fresh(ys, seen + LinksOf(xs))
    ensures Fresh(xs + ys, seen)
  {
    var all := xs + ys;
    forall k | 0 <= k < |all| ensures all[k].link !in seen {
      if k >= |xs| { assert all[k] == ys[k - |xs|]; }
    }
    forall i, j | 0 <= i < j < |all| ensures all[i].link != all[j].link {
      if j >= |xs| {
        assert all[j] == ys[j - |xs|];
        if i < |xs| { assert all[i].link in LinksOf(xs); }
      }
    }
  }

  /** The store never holds two items with the same link if it did not before the crawl. */
  lemma CrawlKeepsLinksDistinct(source: Source, items: seq<Item>, now: Instant,
                                feed: HttpResponse<FeedBody>, page: HttpResponse<Scraper.Document>, ext: Toolkit)
    requires DistinctLinks(items)
    ensures DistinctLinks(items + CrawlPath(source, LinksOf(items), now, feed, page, ext).saved)
  {
    CrawlPathFresh(source, LinksOf(items), now, feed, page, ext);
    DistinctAppend(items, CrawlPath(source, LinksOf(items), now, feed, page, ext).saved);
  }

  /**
   * The returned count: on success the returned list is the tail of what was saved, and all
   * of it outside an AUTO fallback; after an exception it is 0 although items may be saved.
   * Without null keywords and with a readable feed, an RSS crawl always succeeds.
   */
  lemma CountIsReturnedItems(source: Source, seen: set<string>, now: Instant,
                             feed: HttpResponse<FeedBody>, page: HttpResponse<Scraper.Document>, ext: Toolkit)
    ensures var run := CrawlPath(source, seen, now, feed, page, ext);
            && Count(run) <= |run.saved|
            && (run.result.Success? ==> run.result.value == run.saved[|run.saved| - |run.result.value|..])
            && (run.result.Failure? ==> Count(run) == 0)
    ensures var run := CrawlPath(source, seen, now, feed, page, ext);
            (source.mode != AUTO || RssPath(source, seen, now, feed, ext).result.Success?) && run.result.Success? ==>
              run.result.value == run.saved && Count(run) == |run.saved|
    ensures var run := CrawlPath(source, seen, now, feed, page, ext);
            source.mode == RSS && NoNullKeywords(source) && FetchFeedResult(feed, now).Success? ==>
              run.result.Success? && Count(run) == |run.saved|
  {
    var run := CrawlPath(source, seen, now, feed, page, ext);
    var rss := RssPath(source, seen, now, feed, ext);
    RssPathReturnsSaved(source, seen, now, feed, ext);
    match source.mode
    case RSS =>
      assert run == rss;
      assert rss.saved[0..] == rss.saved;
    case HTML =>
      HtmlPathSavesPage(source, seen, now, page, page, ext);
      assert run.saved[0..] == run.saved;
    case AUTO =>
      if rss.result.Success? {
        AutoPathFeed(source, seen, now, feed, page, ext);
        assert rss.saved[0..] == rss.saved;
      } else {
        AutoPathUnfold(source, seen, now, feed, page, ext);
        var html := HtmlPath(source, seen + LinksOf(rss.saved), now, page, ext);
        HtmlPathSavesPage(source, seen + LinksOf(rss.saved), now, page, page, ext);
        assert run.saved[|rss.saved|..] == html.saved;
      }
  }

  /** A successful RSS path returns what it saved; without null keywords a readable feed succeeds. */
  lemma RssPathReturnsSaved(source: Source, seen: set<string>, now: Instant, feed: HttpResponse<FeedBody>, ext: Toolkit)
    ensures var rss := RssPath(source, seen, now, feed, ext);
            rss.result.Success? ==> rss.result.value == rss.saved
    ensures NoNullKeywords(source) && FetchFeedResult(feed, now).Success? ==> RssPath(source, seen, now, feed, ext).result.Success?
  {
    if FetchFeedResult(feed, now).Success? {
      var entries := FetchFeedResult(feed, now).value;
      RssLoopReturnsSaved(source, entries, seen, now, ext);
      if NoNullKeywords(source) {
        RssLoopCompletes(source, entries, seen, now, ext);
      }
    }
  }

  // ---------------------------------------------------------------- HTML and AUTO

  /**
   * The HTML path saves at most one item, whose link is the source URL, and only when it
   * returns it; with that URL stored it saves nothing and does not look at the page.
   */
  lemma HtmlPathSavesPage(source: Source, seen: set<string>, now: Instant,
                          page: HttpResponse<Scraper.Document>, other: HttpResponse<Scraper.Document>, ext: Toolkit)
    ensures var run := HtmlPath(source, seen, now, page, ext);
            && |run.saved| <= 1
            // the one save comes last: nothing is saved when the path throws
            && (run.result.Failure? ==> run.saved == [])
            && (run.result.Success? ==> run.result.value == run.saved)
            && (|run.saved| == 1 ==>
                  && page.Response? && page.statusCode == 200
                  && run.saved[0] == HtmlItem(source, Scraper.ScrapeOf(page.body, ext), now)
                  && run.saved[0].link == source.url)
    ensures source.url in seen ==>
              HtmlPath(source, seen, now, page, ext) == HtmlPath(source, seen, now, other, ext) == Run([], Success([]))
  {
  }

  /** When the RSS path does not throw, AUTO is the RSS path and never fetches the page. */
  lemma AutoPrefersFeed(source: Source, seen: set<string>, now: Instant, feed: HttpResponse<FeedBody>,
                        page: HttpResponse<Scraper.Document>, other: HttpResponse<Scraper.Document>, ext: Toolkit)
    requires RssPath(source, seen, now, feed, ext).result.Success?
    ensures AutoPath(source, seen, now, feed, page, ext) == RssPath(source, seen, now, feed, ext)
    ensures AutoPath(source, seen, now, feed, page, ext) == AutoPath(source, seen, now, feed, other, ext)
  {
  }

  /** A feed that cannot be fetched or parsed makes AUTO crawl the page as HTML would. */
  lemma AutoFallsBackOnFeedFailure(source: Source, seen: set<string>, now: Instant, feed: HttpResponse<FeedBody>,
                                   page: HttpResponse<Scraper.Document>, ext: Toolkit)
    requires FetchFeedResult(feed, now).Failure?
    ensures AutoPath(source, seen, now, feed, page, ext) == HtmlPath(source, seen, now, page, ext)
  {
  }

  // ---------------------------------------------------------------- an example

  /**
   * Keywords ["news", null]: the first entry mentions "news" and is saved; the second does
   * not, so the loop reaches the null keyword and throws. The crawl reports 0 new items
   * although one was saved.
   */
  lemma PartialSaveCountsZero(now: Instant)
    ensures var ext := ExampleToolkit();
            var source := Source(7, "Example", "https://example.org/feed", RSS, Some([Some("news"), None]), None,
                                 60, None, 0, 0);
            var first := FeedItem(Some("news"), "https://example.org/1", None, None, now, None);
            var second := FeedItem(Some("sports"), "https://example.org/2", None, None, now, None);
            var run := RssLoop(source, [first, second], {}, now, ext);
            && run.saved == [RssItem(source, first, now, ext)]
            && run.result == Failure(NullKeyword)
            && Count(run) == 0
  {
    var ext := ExampleToolkit();
    var source := Source(7, "Example", "https://example.org/feed", RSS, Some([Some("news"), None]), None,
                         60, None, 0, 0);
    var first := FeedItem(Some("news"), "https://example.org/1", None, None, now, None);
    var second := FeedItem(Some("sports"), "https://example.org/2", None, None, now, None);
    var keywords := [Some("news"), None];
    assert CombinedText(first.title, first.content) == "news ";
    assert CombinedText(second.title, second.content) == "sports ";
    assert ext.toLowerCase("news ") == "news " && ext.toLowerCase("news") == "news";
    assert ext.toLowerCase("sports ") == "sports ";
    assert OccursAt("news ", "news", 0);
    assert KeywordHit("news ", "news", ext);
    assert KeywordScan("news ", keywords, ext) == Success(true);
    assert Filter(source, first.title, first.content, ext) == Success(true);
    forall i: nat | i <= |"sports "| ensures !OccursAt("sports ", "news", i) {
      if i + 4 <= |"sports "| {
        assert "sports "[i..i + 4][0] == "sports "[i];
        assert i == 0 || i == 1 || i == 2 || i == 3;
      }
    }
    assert !KeywordHit("sports ", "news", ext);
    assert KeywordScan("sports ", keywords[1..], ext) == Failure(NullKeyword);
    assert KeywordScan("sports ", keywords, ext) == Failure(NullKeyword);
    assert Filter(source, second.title, second.content, ext) == Failure(NullKeyword);
    var rest := RssLoop(source, [second], {first.link}, now, ext);
    assert rest == Run([], Failure(NullKeyword));
    assert [first, second][1..] == [second];
    assert RssLoop(source, [first, second], {}, now, ext) == Then([RssItem(source, first, now, ext)], rest);
  }

  /** The library stand-ins of the examples: identity text functions, no regex matches. */
  function ExampleToolkit(): Toolkit {
    Toolkit(s => s, s => s, s => s, p => true, (p, t) => false, b => seq(32, _ => 0))
  }

  /** An AUTO source at "U" with keywords ["k", null]. */
  function RecrawlSource(): Source {
    Source(3, "Example", "U", AUTO, Some([Some("k"), None]), None, 60, None, 0, 0)
  }

  /** A feed whose first entry, linked to the source URL, does not mention "k"; the second does. */
  function RecrawlFeed(): HttpResponse<FeedBody> {
    Response(200, Parsed([SyndEntry(Some("x"), "U", None, None, Some(0), None, None),
                          SyndEntry(Some("k"), "V", None, None, Some(0), None, None)]))
  }

  /** A page titled "k". */
  function RecrawlPage(): HttpResponse<Scraper.Document> {
    Response(200, Scraper.Document(None, None, "k", None, None, None, None, None, None, None, [], ""))
  }

  /** The first crawl: the RSS loop throws on the first entry, and the HTML fallback stores
      the page under the source URL. */
  lemma RecrawlFirst(now: Instant)
    ensures CrawlPath(RecrawlSource(), {}, now, RecrawlFeed(), RecrawlPage(), ExampleToolkit()).saved ==
              [HtmlItem(RecrawlSource(), Scraper.ScrapeOf(RecrawlPage().body, ExampleToolkit()), now)]
  {
    var ext := ExampleToolkit();
    var source := RecrawlSource();
    var f1 := ConvertEntry(RecrawlFeed().body.entries[0], now);
    assert ConvertAll(RecrawlFeed().body.entries, now)[0] == f1;
    assert CombinedText(f1.title, f1.content) == "x ";
    assert !OccursAt("x ", "k", 0) && !OccursAt("x ", "k", 1) && !OccursAt("x ", "k", 2);
    assert !KeywordHit("x ", "k", ext);
    assert KeywordScan("x ", [Some("k"), None][1..], ext) == Failure(NullKeyword);
    assert Filter(source, f1.title, f1.content, ext) == Failure(NullKeyword);
    assert RssPath(source, {}, now, RecrawlFeed(), ext) == Run([], Failure(NullKeyword));
    AutoPathUnfold(source, {}, now, RecrawlFeed(), RecrawlPage(), ext);
    assert {} + LinksOf([]) == {};
    var scraped := Scraper.ScrapeOf(RecrawlPage().body, ext);
    assert scraped.title == "k" && scraped.content == "";
    assert CombinedText(Some("k"), Some("")) == "k ";
    assert OccursAt("k ", "k", 0);
    assert Filter(source, Some("k"), Some(""), ext) == Success(true);
    assert HtmlPath(source, {}, now, RecrawlPage(), ext).saved == [HtmlItem(source, scraped, now)];
  }

  /** The second crawl, with "U" stored: the first entry is skipped and the second is saved. */
  lemma RecrawlSecond(later: Instant)
    ensures var run := CrawlPath(RecrawlSource(), {"U"}, later, RecrawlFeed(), RecrawlPage(), ExampleToolkit());
            var g2 := ConvertEntry(RecrawlFeed().body.entries[1], later);
            run == Run([RssItem(RecrawlSource(), g2, later, ExampleToolkit())],
                       Success([RssItem(RecrawlSource(), g2, later, ExampleToolkit())]))
  {
    var ext := ExampleToolkit();
    var source := RecrawlSource();
    var entries := ConvertAll(RecrawlFeed().body.entries, later);
    var g2 := ConvertEntry(RecrawlFeed().body.entries[1], later);
    assert entries[1] == g2 && entries[1..] == [g2];
    assert CombinedText(g2.title, g2.content) == "k ";
    assert OccursAt("k ", "k", 0);
    assert Filter(source, g2.title, g2.content, ext) == Success(true);
    assert g2.link == "V" && "V" !in {"U"} && {"U"} + {"V"} == {"U", "V"};
    assert RssLoop(source, [g2][1..], {"U", "V"}, later, ext) == Run([], Success([]));
    ThenFinishes([RssItem(source, g2, later, ext)]);
    assert RssLoop(source, [g2], {"U"}, later, ext) == Run([RssItem(source, g2, later, ext)], Success([RssItem(source, g2, later, ext)]));
    assert RssLoop(source, entries, {"U"}, later, ext) == RssLoop(source, [g2], {"U"}, later, ext);
  }

  /**
   * Why a re-crawl of an AUTO source with a null keyword can save again: the first crawl
   * stores the page under the source URL, so the second RSS loop skips the entry on which
   * the first one threw, reaches the second entry, and saves it: one new item, reported as 1.
   */
  lemma AutoRecrawlCanSave(now: Instant, later: Instant)
    ensures var first := CrawlPath(RecrawlSource(), {}, now, RecrawlFeed(), RecrawlPage(), ExampleToolkit());
            var second := CrawlPath(RecrawlSource(), LinksOf(first.saved), later, RecrawlFeed(), RecrawlPage(), ExampleToolkit());
            && |first.saved| == 1 && first.saved[0].link == "U"
            && |second.saved| == 1 && second.saved[0].link == "V" && Count(second) == 1
  {
    RecrawlFirst(now);
    var first := CrawlPath(RecrawlSource(), {}, now, RecrawlFeed(), RecrawlPage(), ExampleToolkit());
    assert LinksOf(first.saved) == {"U"};
    RecrawlSecond(later);
  }
}
