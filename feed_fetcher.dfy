/** Fetching an RSS/Atom feed and normalising its entries into FeedItems. */
module Feeds {
  import opened Wrappers
  import opened Entities
  import opened Libraries

  /** A Rome SyndContent; its value may be null. */
  datatype SyndContent = SyndContent(value: Option<string>)

  /** The parts of a Rome SyndEntry that convertEntry reads. */
  datatype SyndEntry = SyndEntry(
    title: Option<string>,
    link: string,
    description: Option<SyndContent>,
    contents: Option<seq<SyndContent>>,
    publishedDate: Option<Instant>,
    updatedDate: Option<Instant>,
    author: Option<string>)

  /** What SyndFeedInput.build makes of the response bytes: an exception, or the entries. */
  datatype FeedBody = Unparseable | Parsed(entries: seq<SyndEntry>)

  /** A normalised feed entry; the published date is never null. */
  datatype FeedItem = FeedItem(
    title: Option<string>,
    link: string,
    description: Option<string>,
    content: Option<string>,
    publishedDate: Instant,
    author: Option<string>)

  /** convertEntry */
  function ConvertEntry(entry: SyndEntry, now: Instant): (item: FeedItem)
    // content: the first content value, else the description value, else null
    ensures entry.contents.Some? && entry.contents.value != [] ==> item.content == entry.contents.value[0].value
    ensures (entry.contents.None? || entry.contents.value == []) && entry.description.Some? ==>
              item.content == entry.description.value.value
    ensures (entry.contents.None? || entry.contents.value == []) && entry.description.None? ==> item.content == None
    // published date: published, else updated, else the clock
    ensures entry.publishedDate.Some? ==> item.publishedDate == entry.publishedDate.value
    ensures entry.publishedDate.None? && entry.updatedDate.Some? ==> item.publishedDate == entry.updatedDate.value
    ensures entry.publishedDate.None? && entry.updatedDate.None? ==> item.publishedDate == now
    // copied fields
    ensures item.title == entry.title && item.link == entry.link && item.author == entry.author
    ensures item.description == if entry.description.Some? then entry.description.value.value else None
  {
    var content :=
      if entry.contents.Some? && |entry.contents.value| > 0 then entry.contents.value[0].value
      else if entry.description.Some? then entry.description.value.value
      else None;
    var pubDate := if entry.publishedDate.Some? then entry.publishedDate else entry.updatedDate;
    var publishedDate := if pubDate.Some? then pubDate.value else now;
    FeedItem(entry.title, entry.link,
             if entry.description.Some? then entry.description.value.value else None,
             content, publishedDate, entry.author)
  }

  /** The entries converted one by one, in feed order. */
  function ConvertAll(entries: seq<SyndEntry>, now: Instant): (r: seq<FeedItem>)
    ensures |r| == |entries| && forall i :: 0 <= i < |entries| ==> r[i] == ConvertEntry(entries[i], now)
  {
    seq(|entries|, i requires 0 <= i < |entries| => ConvertEntry(entries[i], now))
  }

  /** The outcome of fetchFeed for a given HTTP outcome. */
  function FetchFeedResult(response: HttpResponse<FeedBody>, now: Instant): (r: Result<seq<FeedItem>, CrawlFailure>)
    ensures r.Success? <==> response.Response? && response.statusCode == 200 && response.body.Parsed?
    ensures r.Success? ==> r.value == ConvertAll(response.body.entries, now)
    ensures response.ConnectionFailed? ==> r == Failure(NetworkError)
    ensures response.Response? && response.statusCode != 200 ==> r == Failure(HttpStatusError(response.statusCode))
    ensures response.Response? && response.statusCode == 200 && response.body.Unparseable? ==> r == Failure(FeedParseError)
  {
    match response
    case ConnectionFailed => Failure(NetworkError)
    case Response(status, body) =>
      if status != 200 then Failure(HttpStatusError(status))
      else if body.Unparseable? then Failure(FeedParseError)
      else Success(ConvertAll(body.entries, now))
  }

  /** The content-or-description choice the crawler makes (CrawlerService.java:92) is the
      content value except when the first content entry has a null value while a
      description is present. */
  lemma ContentFallbackIsContent(entry: SyndEntry, now: Instant)
    ensures var item := ConvertEntry(entry, now);
            (if item.content.Some? then item.content else item.description) != item.content
            <==> && entry.contents.Some? && entry.contents.value != []
                 && entry.contents.value[0].value.None?
                 && entry.description.Some? && entry.description.value.value.Some?
  {
  }

  /** parseFeed: one FeedItem per entry, in entry order; any parser exception becomes
      "Failed to parse feed". */
  method ParseFeed(body: FeedBody, now: Instant) returns (r: Result<seq<FeedItem>, CrawlFailure>)
    ensures body.Unparseable? ==> r == Failure(FeedParseError)
    ensures body.Parsed? ==> && r.Success?
                             && |r.value| == |body.entries|
                             && forall i :: 0 <= i < |body.entries| ==> r.value[i] == ConvertEntry(body.entries[i], now)
  {
    if body.Unparseable? {
      return Failure(FeedParseError);
    }
    var entries := body.entries;
    var items: seq<FeedItem> := [];
    for i := 0 to |entries|
      invariant |items| == i
      invariant forall k :: 0 <= k < i ==> items[k] == ConvertEntry(entries[k], now)
    {
      items := items + [ConvertEntry(entries[i], now)];
    }
    return Success(items);
  }

  /** fetchFeed: a non-200 status or a transport failure throws before any parsing. The
      method follows the Java method's steps; FetchFeedResult is the same outcome as a
      function, for use in specifications. */
  method FetchFeed(response: HttpResponse<FeedBody>, now: Instant) returns (r: Result<seq<FeedItem>, CrawlFailure>)
    ensures response.ConnectionFailed? ==> r == Failure(NetworkError)
    ensures response.Response? && response.statusCode != 200 ==> r == Failure(HttpStatusError(response.statusCode))
    ensures response.Response? && response.statusCode == 200 && response.body.Unparseable? ==> r == Failure(FeedParseError)
    ensures response.Response? && response.statusCode == 200 && response.body.Parsed? ==>
              && r.Success? && |r.value| == |response.body.entries|
              && forall i :: 0 <= i < |r.value| ==> r.value[i] == ConvertEntry(response.body.entries[i], now)
    ensures r == FetchFeedResult(response, now)
  {
    if response.ConnectionFailed? {
      return Failure(NetworkError);
    }
    if response.statusCode != 200 {
      return Failure(HttpStatusError(response.statusCode));
    }
    r := ParseFeed(response.body, now);
    if response.body.Parsed? {
      assert r.value == ConvertAll(response.body.entries, now);
    }
  }
}
