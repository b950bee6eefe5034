# SiteWatch crawl engine in Dafny

This project is a model of the crawl engine of SiteWatch, a Spring Boot service. SiteWatch monitors websites and feeds and stores each newly discovered item.

The model covers five parts of the system:

- **Crawl orchestrator** (`CrawlerService`). It loads a source and runs the RSS, HTML or AUTO path for the source's mode. It skips links already stored and applies the source's keyword and regex filters. It saves the new items, always stamps the source as checked, and returns the number of new items.
- **Page scraper** (`HtmlScraper`). It extracts the title, main content, description and author of a page. It builds the 200-character snippet and the SHA-256 content hash.
- **Feed fetcher** (`FeedFetcher`). It maps HTTP and parser failures to exceptions and converts feed entries.
- **Source service** (`SourceService`). It creates, lists, reads and deletes sources, and converts them to DTOs.
- **Request validation** (`CreateSourceRequest`). Its constraints are modelled as a validity predicate.

Files:

| file | module | models |
|---|---|---|
| `wrappers.dfy` | `Wrappers` | `Option`, `Result`, `Outcome` |
| `java_text.dfy` | `JavaText` | `Character.isWhitespace`, `String.isBlank`, `String.trim`, `contains`, UTF-8 encoding |
| `hex_format.dfy` | `HexFormat` | `HexFormat.of().formatHex` and its inverse |
| `libraries.dfy` | `Libraries` | the library functions the core calls but does not define, and HTTP outcomes |
| `entities.dfy` | `Entities` | `Source`, `Item`, the exceptions |
| `repositories.dfy` | `Repositories` | `SourceRepository` and `ItemRepository` as in-memory stores (classes) |
| `create_source_request.dfy` | `Requests` | `CreateSourceRequest` and its Bean Validation constraints |
| `source_service.dfy` | `SourceManagement` | `SourceService` (a class over the source store) |
| `feed_fetcher.dfy` | `Feeds` | `FeedFetcher` |
| `html_scraper.dfy` | `Scraper` | `HtmlScraper` |
| `crawler_service.dfy` | `Crawler` | `CrawlerService` (a class over both stores), and the specification functions of its paths |
| `crawler_properties.dfy` | `CrawlerProperties` | lemmas about the crawl paths |

## How the model is built

**Inputs instead of I/O.**
- The world outside the process becomes inputs to the model. An HTTP exchange is a `HttpResponse<Body>`: either `ConnectionFailed` (an `IOException` or `InterruptedException` from `HttpClient.send`, or the `IllegalArgumentException` that `URI.create` throws on a malformed URL that `^https?://.*` still admits, such as one containing a space; both fetchers catch either kind the same way) or `Response(statusCode, body)`.
- A feed body is what the Rome parser yields: `Unparseable`, or `Parsed(entries)`.
- A page body is a `Document` holding the values the scraper selects from the parsed page.
- The functions of Jsoup, `String.toLowerCase`, `java.util.regex` and SHA-256 are fields of a `Toolkit` value. The model assumes nothing about them beyond their types.
- The clock is a single `now` argument per operation.

**Nulls.** Every Java reference that can be null is an `Option`. This covers the filter arrays and their elements. A null keyword makes `keyword.toLowerCase()` throw a `NullPointerException` in the middle of the keyword loop (`CrawlFailure.NullKeyword`). A null regex makes `Pattern.compile` throw, and that exception is caught, so a null pattern is skipped like a malformed one.

**Stateful parts.** The parts that change state are imperative Dafny:
- The repositories are classes whose fields are a `map` (sources) and a `seq` (items).
- `SourceService` and `CrawlerService` are classes that hold them.
- The loops of the source code are `for` and `while` loops with invariants: the RSS entry loop, both filter loops, the paragraph loop of the scraper, and the entry loop of `parseFeed`. The `FindAll` loop stands for the repository's iteration that the `stream().map(...)` of `getAllSources` runs over (`SourceService.java:77-80`).
- Each method is proved against a specification function. For example, `CrawlRssFeed` leaves `items == old(items) + RssPath(...).saved` and returns `RssPath(...).result`.
- The lemmas about an operation are stated about its specification function.

**A crawl as a run.** A crawl path is summarised as a `Run`. It holds every item the path saved and what the path returned or threw.
- The two can differ, because an exception in the middle of the RSS loop leaves the earlier items saved. `crawlSource` catches that exception, so the transaction commits.
- `CrawlSource` states the whole new state:
  - the items are the old items plus `run.saved`;
  - the source is overwritten with `lastChecked = now` and `updatedAt = now`;
  - the result is the size of the returned list, or 0 after an exception;
  - an unknown id throws and changes nothing.

### Where the model follows the code as written

- **Existence check.** The existence check for an item is `existsByLink(link)`, by link alone and across all sources (`CrawlerService.java:78`, `:110`). The items table is unique on (source_id, link) (`uk_items_source_link`, `Item.java:29-32`), and `ItemRepository` declares only `existsBySourceIdAndLink` (`ItemRepository.java:68`). The model follows the calls: a link stored for any source is skipped.
- **Content hash.** `generateHash` hashes the UTF-8 bytes of the content as given, with no whitespace normalisation. The only special case is that null or blank content gives `""`.
- **Longest block.** The "longest block" of paragraphs is in fact every paragraph longer than 50 characters, in order, each followed by a blank line, and then trimmed. The current block only grows, so it is always the longest.
- **Count after a failure.** After an exception, `crawlSource` returns 0 even when items were saved before it. `PartialSaveCountsZero` shows such an input.

## Model

| member | source | states |
|---|---|---|
| JavaText.Trim | src/main/java/com/sitewatch/api/dto/CreateSourceRequest.java:25-31 | The result is empty exactly when every character is at most U+0020. Otherwise it starts and ends with a character above U+0020. This is `String.trim` as used by `@NotBlank`. |
| JavaText.Utf8 | src/main/java/com/sitewatch/crawler/HtmlScraper.java:248 | The UTF-8 encoding has between 1 and 4 bytes per character, and exactly 1 per character for ASCII text. |
| HexFormat.FormatHex | src/main/java/com/sitewatch/crawler/HtmlScraper.java:249 | Two lower-case hex digits per byte. |
| HexFormat.ParseFormatHex | src/main/java/com/sitewatch/crawler/HtmlScraper.java:249 | Parsing the hex text gives back the digest bytes (round trip). |
| HexFormat.FormatHexInjective | src/main/java/com/sitewatch/crawler/HtmlScraper.java:249 | Different digests give different hex strings. |
| Repositories.LinksOf | src/main/java/com/sitewatch/crawler/CrawlerService.java:78 | A link is in the set exactly when some stored item has it. |
| Repositories.LinksOfAppend | src/main/java/com/sitewatch/crawler/CrawlerService.java:98 | Saving more items adds exactly their links. |
| Repositories.SourceRepository.FindById | src/main/java/com/sitewatch/service/SourceService.java:92-93 | The stored source for the id, or none. |
| Repositories.SourceRepository.ExistsByUrl | src/main/java/com/sitewatch/persistence/repository/SourceRepository.java:54 | True exactly when some stored source has that URL. A null URL matches nothing. |
| Repositories.SourceRepository.Insert | src/main/java/com/sitewatch/service/SourceService.java:65 | The new row gets the next id and both timestamps set to `now`. Nothing else changes, and the store stays consistent. |
| Repositories.SourceRepository.Update | src/main/java/com/sitewatch/crawler/CrawlerService.java:55-56 | The row is overwritten with `updatedAt = now`. No other row changes. |
| Repositories.SourceRepository.ExistsById | src/main/java/com/sitewatch/service/SourceService.java:105 | True exactly when the id is stored. |
| Repositories.SourceRepository.DeleteById | src/main/java/com/sitewatch/service/SourceService.java:108 | Exactly that row is removed. |
| Repositories.SourceRepository.FindAll | src/main/java/com/sitewatch/service/SourceService.java:78 | Every stored source appears exactly once. |
| Repositories.ItemRepository.ExistsByLink | src/main/java/com/sitewatch/crawler/CrawlerService.java:78 | True exactly when some stored item, of any source, has the link. |
| Repositories.ItemRepository.Save | src/main/java/com/sitewatch/crawler/CrawlerService.java:98 | The item is appended to the store. |
| Requests.NotBlank | src/main/java/com/sitewatch/api/dto/CreateSourceRequest.java:25-31 | Non-null, with some character above U+0020, which is what `@NotBlank` accepts after `String.trim`. |
| Requests.MatchesUrlPattern | src/main/java/com/sitewatch/api/dto/CreateSourceRequest.java:30 | `^https?://.*` under `matches()`, read symbol by symbol. An accepted URL starts with `http://` or `https://`. |
| Requests.Valid | src/main/java/com/sitewatch/api/dto/CreateSourceRequest.java:25-42 | A valid request supplies the NOT NULL columns name, url and mode. Its URL starts with `http://` or `https://`, and its interval, given or defaulted to 60, is between 1 and 10080. |
| Requests.DotStarIsSingleLine | src/main/java/com/sitewatch/api/dto/CreateSourceRequest.java:30 | `.*` matches exactly the strings without a line terminator. |
| Requests.UrlPatternIsHttpUrl | src/main/java/com/sitewatch/api/dto/CreateSourceRequest.java:30 | `^https?://.*` accepts exactly the single-line strings that start with `http://` or `https://`. Both directions are proved. |
| Requests.ValidRequestShape | src/main/java/com/sitewatch/api/dto/CreateSourceRequest.java:25-42 | A valid request has an http(s) URL, and an interval, given or defaulted, between 1 and 10080. |
| SourceManagement.ToDTO | src/main/java/com/sitewatch/service/SourceService.java:118-131 | Every field of the source is copied. |
| SourceManagement.ToDTOInjective | src/main/java/com/sitewatch/service/SourceService.java:118-131 | The DTO determines the source, so no field is lost. |
| SourceManagement.NewSource | src/main/java/com/sitewatch/service/SourceService.java:56-63 | A row is built exactly when name, url and mode are non-null. Its fields are the request's, the interval defaults to 60, and it has never been checked. |
| SourceManagement.ValidRequestIsStorable | src/main/java/com/sitewatch/service/SourceService.java:49-68 | A validated request always yields a storable row, with an http(s) URL and an interval between 1 and 10080; `createSource` stores it when its URL is not already stored. |
| SourceManagement.SourceService.CreateSource | src/main/java/com/sitewatch/service/SourceService.java:48-69 | A URL already stored is refused and nothing changes. A null NOT NULL column is refused and nothing changes. Otherwise exactly one new row is added under a fresh id, the id counter steps by one, and the row's DTO is returned. URLs stay unique. |
| SourceManagement.SourceService.GetAllSources | src/main/java/com/sitewatch/service/SourceService.java:76-81 | One DTO per stored source, each equal to that source's DTO. |
| SourceManagement.SourceService.GetSourceById | src/main/java/com/sitewatch/service/SourceService.java:90-95 | The DTO of the stored source, or "Source not found". |
| SourceManagement.SourceService.DeleteSource | src/main/java/com/sitewatch/service/SourceService.java:103-110 | A missing id is refused and nothing changes. Otherwise exactly that row is removed and the id counter is unchanged. |
| Feeds.ConvertEntry | src/main/java/com/sitewatch/crawler/FeedFetcher.java:107-128 | Content is the first content value, else the description value, else null. The date is published, else updated, else `now`. Title, link, author and description are copied. |
| Feeds.ContentFallbackIsContent | src/main/java/com/sitewatch/crawler/FeedFetcher.java:108-113 | The crawler's `content ?? description` differs from `content` exactly when the first content entry has a null value and the description has a value. |
| Feeds.ConvertAll | src/main/java/com/sitewatch/crawler/FeedFetcher.java:89-92 | One converted item per entry, in entry order. |
| Feeds.FetchFeedResult | src/main/java/com/sitewatch/crawler/FeedFetcher.java:52-75 | Success exactly for a parsed 200 response, with every entry converted. A transport failure, a non-200 status and an unparseable body each give their own error. |
| Feeds.ParseFeed | src/main/java/com/sitewatch/crawler/FeedFetcher.java:84-99 | A parser failure gives "Failed to parse feed". Otherwise there is one converted item per entry, in order. |
| Feeds.FetchFeed | src/main/java/com/sitewatch/crawler/FeedFetcher.java:52-75 | A transport failure, a non-200 status or a parser failure throws, each with its own error. A 200 response gives the converted entries. |
| Scraper.FirstUsablePicksFirst | src/main/java/com/sitewatch/crawler/HtmlScraper.java:115-130 | The first candidate that exists and is not blank wins. |
| Scraper.FirstUsableNone | src/main/java/com/sitewatch/crawler/HtmlScraper.java:179-191 | There is no value exactly when every candidate is missing or blank. |
| Scraper.ExtractTitle | src/main/java/com/sitewatch/crawler/HtmlScraper.java:115-130 | og:title, else twitter:title, else the document title. |
| Scraper.ExtractMetaDescription | src/main/java/com/sitewatch/crawler/HtmlScraper.java:179-191 | og:description, else the description meta, else null. |
| Scraper.ExtractAuthor | src/main/java/com/sitewatch/crawler/HtmlScraper.java:196-208 | article:author, else the author meta, else null. |
| Scraper.LongParagraphs | src/main/java/com/sitewatch/crawler/HtmlScraper.java:158-160 | The kept paragraphs are all longer than 50 characters and come from the page. None is kept exactly when no paragraph is longer than 50. |
| Scraper.LongParagraphsAppend | src/main/java/com/sitewatch/crawler/HtmlScraper.java:158-161 | One more paragraph is kept exactly when it is longer than 50. |
| Scraper.BlockAppend | src/main/java/com/sitewatch/crawler/HtmlScraper.java:161 | Each kept paragraph is appended followed by a blank line. |
| Scraper.MainContent | src/main/java/com/sitewatch/crawler/HtmlScraper.java:135-174 | Without a container element, the body text is replaced only when some paragraph is longer than 50 characters. |
| Scraper.ExtractMainContent | src/main/java/com/sitewatch/crawler/HtmlScraper.java:135-174 | The content is the sanitised article, else main, else the content container. Otherwise the trimmed block of long paragraphs, else the body text. The paragraph loop is proved against `MainContent`. |
| Scraper.NoLongParagraphGivesBodyText | src/main/java/com/sitewatch/crawler/HtmlScraper.java:168-173 | With no container and no paragraph longer than 50, the content is the body text. |
| Scraper.LongParagraphGivesBlock | src/main/java/com/sitewatch/crawler/HtmlScraper.java:154-170 | With no container and some long paragraph, the content is the trimmed block. |
| Scraper.LongParagraphInBlock | src/main/java/com/sitewatch/crawler/HtmlScraper.java:158-165 | Every long paragraph occurs in the block. |
| Scraper.Truncate | src/main/java/com/sitewatch/crawler/HtmlScraper.java:223-226 | At most 200 characters. Short text is kept, and longer text becomes the first 197 characters plus "...". |
| Scraper.TruncateIdempotent | src/main/java/com/sitewatch/crawler/HtmlScraper.java:223-226 | Truncating twice is truncating once. Text is kept exactly when it has at most 200 characters. |
| Scraper.CreateSnippet | src/main/java/com/sitewatch/crawler/HtmlScraper.java:221-227 | The truncated plain text of the content, at most 200 characters. |
| Scraper.GenerateHash | src/main/java/com/sitewatch/crawler/HtmlScraper.java:242-253 | `""` exactly for null or blank content (`Character.isWhitespace`). Otherwise 64 lower-case hex digits. |
| Scraper.HashIdentifiesDigest | src/main/java/com/sitewatch/crawler/HtmlScraper.java:242-253 | Two equal non-empty hashes come from contents with equal SHA-256 digests. |
| Scraper.ScrapeOf | src/main/java/com/sitewatch/crawler/HtmlScraper.java:85-110 | Title, content, description and author come from their extractors. The snippet is the content's snippet, at most 200 characters. The hash is the content's hash, `""` exactly when the content is blank. |
| Scraper.ScrapeResult | src/main/java/com/sitewatch/crawler/HtmlScraper.java:53-76 | Success exactly for a 200 response, and then the parsed page. A transport failure and a non-200 status give their own errors. |
| Scraper.ParseHtml | src/main/java/com/sitewatch/crawler/HtmlScraper.java:85-110 | The snippet is made from the extracted content, and the hash is that content's hash. |
| Scraper.Scrape | src/main/java/com/sitewatch/crawler/HtmlScraper.java:53-76 | A transport failure or a non-200 status throws before parsing. A 200 response gives the parsed content. |
| Crawler.CombinedText | src/main/java/com/sitewatch/crawler/CrawlerService.java:152 | The title text, one space, then the content text. A null part contributes nothing. |
| Crawler.KeywordScan | src/main/java/com/sitewatch/crawler/CrawlerService.java:155-166 | A throw is the null-keyword `NullPointerException` and needs a null keyword in the array. An accept needs a keyword contained in the text, ignoring case. |
| Crawler.Filter | src/main/java/com/sitewatch/crawler/CrawlerService.java:151-195 | A throw is the null-keyword case and needs a non-empty keyword array. A pass means each non-empty axis has a hit. |
| Crawler.ContentOrDescription | src/main/java/com/sitewatch/crawler/CrawlerService.java:92 | The content when it is non-null, else the description. Null only when both are null. |
| Crawler.CreateSnippet | src/main/java/com/sitewatch/crawler/CrawlerService.java:200-209 | `""` for null or blank content. Otherwise the truncated plain text, at most 200 characters. |
| Crawler.RssItem | src/main/java/com/sitewatch/crawler/CrawlerService.java:88-96 | The saved item has the entry's link and title, the source's id, the published date and `now`. The summary is the snippet of content-or-description, at most 200 characters. The hash is the hash of content-or-description: `""` exactly when it is null or blank, and 64 hex digits otherwise. |
| Crawler.HtmlItem | src/main/java/com/sitewatch/crawler/CrawlerService.java:123-129 | The item has the source's id, the source URL as link, the scraped title, snippet and hash, no published date, and `now`. |
| Crawler.RssLoop | src/main/java/com/sitewatch/crawler/CrawlerService.java:76-100 | A specification function with no contract of its own. It gives the loop's saves and result entry by entry, each entry checked against the links stored so far; the `RssLoop` lemmas below state its properties. |
| Crawler.RssPath | src/main/java/com/sitewatch/crawler/CrawlerService.java:72-103 | A specification function with no contract of its own: a fetch failure saves nothing and throws its error; otherwise the entry loop. |
| Crawler.HtmlPath | src/main/java/com/sitewatch/crawler/CrawlerService.java:108-133 | A specification function with no contract of its own: the stored-URL skip, the scrape, the filter and the one save. `HtmlPathSavesPage` states its properties. |
| Crawler.AutoPath | src/main/java/com/sitewatch/crawler/CrawlerService.java:138-146 | A specification function with no contract of its own: the RSS path, and on an exception its saves followed by the HTML path run against the store as RSS left it. |
| Crawler.CrawlPath | src/main/java/com/sitewatch/crawler/CrawlerService.java:47-52 | A specification function with no contract of its own: the switch on the mode. |
| Crawler.Count | src/main/java/com/sitewatch/crawler/CrawlerService.java:59-65 | The size of the returned list, or 0 after an exception. `CountIsReturnedItems` relates it to what was saved. |
| Crawler.CrawlerService.CrawlSource | src/main/java/com/sitewatch/crawler/CrawlerService.java:39-67 | An unknown id throws and changes nothing. Otherwise:<br>- the mode's path runs;<br>- the source store's id counter is unchanged;<br>- its saves are kept even when it throws;<br>- the source is saved with `lastChecked` and `updatedAt` set to `now`;<br>- the result is the returned list's size, or 0. |
| Crawler.CrawlerService.CrawlRssFeed | src/main/java/com/sitewatch/crawler/CrawlerService.java:72-103 | The entry loop is proved against `RssPath`. Each entry is checked against the store as it stands, after the entries before it were saved. |
| Crawler.CrawlerService.CrawlHtmlPage | src/main/java/com/sitewatch/crawler/CrawlerService.java:108-133 | The method is proved against `HtmlPath`. |
| Crawler.CrawlerService.CrawlAuto | src/main/java/com/sitewatch/crawler/CrawlerService.java:138-146 | The method is proved against `AutoPath`: RSS first, and on any exception the HTML path against the store as RSS left it. |
| Crawler.CrawlerService.MatchesFilters | src/main/java/com/sitewatch/crawler/CrawlerService.java:151-195 | Both loops, with their `break`s, are proved against `Filter`. |
| CrawlerProperties.KeywordScanAccepts | src/main/java/com/sitewatch/crawler/CrawlerService.java:156-166 | The keyword loop accepts exactly when some keyword occurs, ignoring case, with no null keyword before it. |
| CrawlerProperties.KeywordScanThrows | src/main/java/com/sitewatch/crawler/CrawlerService.java:158-160 | The keyword loop throws exactly when it reaches a null keyword before any match. |
| CrawlerProperties.FilterDecides | src/main/java/com/sitewatch/crawler/CrawlerService.java:151-195 | The filters throw only in the null-keyword case. Without null keywords, a candidate passes exactly when each non-empty axis has a hit: some keyword is contained, or some compilable pattern finds a match. |
| CrawlerProperties.RssLoopFresh | src/main/java/com/sitewatch/crawler/CrawlerService.java:76-80 | The RSS loop never saves a stored link, nor one link twice within a feed. |
| CrawlerProperties.RssLoopReturnsSaved | src/main/java/com/sitewatch/crawler/CrawlerService.java:98-102 | A completed RSS loop returns exactly the items it saved. |
| CrawlerProperties.RssLoopCompletes | src/main/java/com/sitewatch/crawler/CrawlerService.java:76-100 | Without null keywords, the RSS loop never throws. |
| CrawlerProperties.RssLoopInFeedOrder | src/main/java/com/sitewatch/crawler/CrawlerService.java:76-100 | The saved items are a subsequence of the feed's entries, converted, in feed order. |
| CrawlerProperties.RssLoopSavesAccepted | src/main/java/com/sitewatch/crawler/CrawlerService.java:76-99 | Every saved item is built from an entry whose link was new and which the filters accepted. |
| CrawlerProperties.RssLoopStep | src/main/java/com/sitewatch/crawler/CrawlerService.java:76-99 | One iteration either skips the entry, throws, or saves it and adds its link to those seen. |
| CrawlerProperties.RssLoopRepeat | src/main/java/com/sitewatch/crawler/CrawlerService.java:76-100 | Rerun over the same entries with the first run's links stored, the loop saves nothing and ends as the first run ended. |
| CrawlerProperties.ConvertAllIgnoresClock | src/main/java/com/sitewatch/crawler/FeedFetcher.java:107-128 | Link, title and content of the entries do not depend on the clock. |
| CrawlerProperties.RssPathRepeat | src/main/java/com/sitewatch/crawler/CrawlerService.java:72-103 | Re-crawling the same feed later saves nothing. |
| CrawlerProperties.HtmlPathRepeat | src/main/java/com/sitewatch/crawler/CrawlerService.java:108-133 | Re-crawling the same page saves nothing. |
| CrawlerProperties.RecrawlSavesNothing | src/main/java/com/sitewatch/crawler/CrawlerService.java:47-52 | At the path level: the crawl path of one source value, run a second time against the same responses with the first run's items stored, saves nothing and reports 0. |
| CrawlerProperties.RecrawlSourceSavesNothing | src/main/java/com/sitewatch/crawler/CrawlerService.java:39-67 | Two `crawlSource` calls on one stored source, against the same responses: the second call, which crawls the row the first one re-stamped against the store the first one extended, saves nothing and reports 0. |
| CrawlerProperties.CrawlPathStamp | src/main/java/com/sitewatch/crawler/CrawlerService.java:54-56 | The crawl paths do not read `lastChecked` or `updatedAt`, so the re-stamped source is crawled exactly as before. |
| CrawlerProperties.RssLoopSavesForSource | src/main/java/com/sitewatch/crawler/CrawlerService.java:76-100 | The RSS loop saves at most one item per entry, each for the crawled source and discovered at `now`. |
| CrawlerProperties.CrawlPathSavesForSource | src/main/java/com/sitewatch/crawler/CrawlerService.java:88-132 | In every mode, every saved item belongs to the crawled source and is discovered at `now`. An RSS crawl saves at most one item per feed entry. |
| CrawlerProperties.CrawlPathFresh | src/main/java/com/sitewatch/crawler/CrawlerService.java:47-52 | In every mode, a crawl saves only links not yet stored, each once. This includes an AUTO fallback after partial RSS saves. |
| CrawlerProperties.CrawlKeepsLinksDistinct | src/main/java/com/sitewatch/crawler/CrawlerService.java:39-67 | If no two stored items share a link, that still holds after a crawl. |
| CrawlerProperties.CountIsReturnedItems | src/main/java/com/sitewatch/crawler/CrawlerService.java:59-65 | The count is at most the number saved. A returned list is the tail of what was saved, and an exception gives 0. Outside an AUTO fallback (RSS, HTML, and AUTO whose RSS path succeeded), a success returns and counts everything saved. Without null keywords and with a readable feed, RSS always succeeds. |
| CrawlerProperties.HtmlPathSavesPage | src/main/java/com/sitewatch/crawler/CrawlerService.java:108-133 | The HTML path saves at most one item, built from a 200 response, whose link is the source URL. It saves nothing when it throws, and on success returns exactly what it saved. With the URL stored, the page is ignored and nothing is saved. |
| CrawlerProperties.AutoPrefersFeed | src/main/java/com/sitewatch/crawler/CrawlerService.java:138-146 | When the RSS path does not throw, even with zero items, AUTO is the RSS path and the page is never consulted. |
| CrawlerProperties.AutoFallsBackOnFeedFailure | src/main/java/com/sitewatch/crawler/CrawlerService.java:138-146 | When the feed cannot be fetched or parsed, AUTO is exactly the HTML path. |
| CrawlerProperties.AutoRecrawlCanSave | src/main/java/com/sitewatch/crawler/CrawlerService.java:138-146 | A concrete AUTO source with keywords `["k", null]`. The first crawl throws in the RSS loop and stores the page under the source URL. The second crawl skips that entry, saves the next one and reports 1. |
| CrawlerProperties.PartialSaveCountsZero | src/main/java/com/sitewatch/crawler/CrawlerService.java:59-65 | A concrete source with keywords `["news", null]`: one item is saved, then the loop throws, and the crawl reports 0. |

## Left out

- **I/O.** HTTP requests, timeouts, headers and `HttpClient` are replaced by the `HttpResponse` inputs. The feed and page responses are given for the source URL.
- **The clock.** Every `Instant.now()` within one call reads as the same `now`.
- **Libraries.** Jsoup parsing, `text()`, `clean()`, CSS selection, the Rome feed parser, `java.util.regex`, `toLowerCase` and SHA-256 are left as library fields of `Toolkit`. Nothing is proved about their internals. `Document` carries the results of the selectors the scraper uses.
- **Character counts.** Strings are sequences of Unicode scalar values. Java counts UTF-16 code units, so `length() > 50` and the 197/200 cut differ for characters outside the Basic Multilingual Plane.
- **Persistence failures.** A save that fails (a database error, a violated unique constraint) and the rollback of `@Transactional` are not modelled. The exception is a null NOT NULL column at source creation, modelled as `MissingRequiredField`.
- **Item storage.** Item ids are not modelled, nor the item's reference to its `Source` entity beyond the source id. The item store is a list.
- **Source ids.** UUID generation is stood in for by a counter in the source store.
- **Bean Validation.** Controller-side validation is not invoked by the services; `Valid` states the constraints, and `ValidRequestIsStorable` connects them to `createSource`. `@Size(max = 255)` is stated on the name. The Lombok `@Builder` ignoring the field default of 60 is covered by the nullable `intervalMinutes`, which the service defaults to 60.
- **Logging.** Log statements are not modelled.
- **Entries with a null link.** Entries whose link is null are not modelled: the link is a string.
- **Other classes.** The controllers, the notification classes and the other repository queries are not part of this model.
- CrawlerProperties.RecrawlSavesNothing and CrawlerProperties.RecrawlSourceSavesNothing: for an AUTO source the lemmas require that no keyword be null. With a null keyword, the HTML fallback can store the source URL and let a second RSS loop pass the entry on which the first one threw. `AutoRecrawlCanSave` proves such a case.
