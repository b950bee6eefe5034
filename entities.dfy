/** The persisted shapes: Source and Item, and the failures the services report. */
module Entities {
  import opened Wrappers

  /** The database-generated identity of a Source (a UUID in the system). */
  type SourceId = nat

  /** A point in time, in milliseconds since the epoch. */
  type Instant = int

  /** How a source is crawled. */
  datatype SourceMode = RSS | HTML | AUTO

  /** The default check interval, in minutes. */
  const DefaultIntervalMinutes: int := 60

  /** A monitored endpoint. The keyword and regex arrays, and their elements, may be null. */
  datatype Source = Source(
    id: SourceId,
    name: string,
    url: string,
    mode: SourceMode,
    filterKeywords: Option<seq<Option<string>>>,
    filterRegex: Option<seq<Option<string>>>,
    intervalMinutes: int,
    lastChecked: Option<Instant>,
    createdAt: Instant,
    updatedAt: Instant)

  /** One discovered piece of content. */
  datatype Item = Item(
    sourceId: SourceId,
    title: Option<string>,
    link: string,
    summary: string,
    contentHash: string,
    publishedAt: Option<Instant>,
    discoveredAt: Instant)

  /** The exceptions a crawl path can throw. */
  datatype CrawlFailure =
    | HttpStatusError(statusCode: int)  // IOException "HTTP <status> ..."
    | NetworkError                      // IOException or InterruptedException from HttpClient.send
    | FeedParseError                    // IOException "Failed to parse feed"
    | NullKeyword                       // NullPointerException from a null filter keyword

  /** The IllegalArgumentExceptions (and store rejections) the services throw to their callers. */
  datatype ServiceError =
    | SourceNotFound(id: SourceId)
    | UrlAlreadyExists(url: string)
    | MissingRequiredField              // a NOT NULL column (name, url, mode) was null at save
}
