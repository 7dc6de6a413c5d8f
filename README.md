# news-parser, modelled in Dafny

This project models the core of the news collector: two source parsers and the shared base class and configuration loader they rely on. The parsers are `RiaParser` for ria.ru and `LentaParser` for lenta.ru. Each parser reads its RSS channels, turns every item into a news record and resolves the article's full text. The model follows these steps:

- **Configuration** (`Config`). It validates the loaded document, rejecting a missing `common.system`, `common.defaults` or a non-dict `sources`. It merges one source's settings. Each channel gets exactly `url`, `category` and `max_news`, with `max_news` falling back to `defaults['max_news']`.
- **Base parser** (`BaseParser`). Construction checks `source_name` and reads the time zone, timeout and user agent. The news template has seven keys. The default ID rule is the last all-digit path segment, or else the URL. A record is a `NewsItem`, and `AsDict` gives the dict the parsers build from it by `update`.
- **RIA** (`RiaParser`):
  - The ID comes from seven patterns tried in priority order. Six are anchored at the end of the cleaned URL; the last resort, a run of at least 8 digits, may match anywhere.
  - The full text comes from the JSON API first, then from the HTML page. Videos, galleries and infographics are skipped without a request.
  - Records keep stale items with an empty `raw_content` and carry an extra `description` key.
  - The channel loop skips malformed feeds.
- **Lenta** (`LentaParser`):
  - The ID is the last path segment, or the second-to-last one when the path ends in `/`.
  - The full text is every paragraph of `topic-body__content`, blank ones included.
  - The channel loop drops stale items.
  - `run` raises `RuntimeError` when nothing was collected.

Python values are the `Py` datatype. A dict is an insertion-ordered list of pairs. Exceptions are `PyError` values inside `Result`. HTTP replies, feedparser and BeautifulSoup are inputs, not code:

- an HTTP reply is `Http<T>`, either a network error or a status and body;
- a parsed page is `HtmlPage`, its `<div>`s with their classes and paragraph texts.

The functions that resolve text also return the requests they make (`Request`). That makes "no request for a filtered URL" a provable statement. `urllib.parse.urlparse(url).path` is modelled in `UrlParse`: CPython's splitting of the scheme, the authority and the `;params` tail, including the `ValueError` for unbalanced brackets.

The loops in `fetch_news`, `_prepare_channels_config` and `_validate_config` are methods, each proved against a function:

- `RiaParser.FetchNews` with `RiaParser.ChannelRecords`;
- `LentaParser.FetchNews` with `LentaParser.ChannelRecords`;
- `Config.PrepareChannels` for `_prepare_channels_config`;
- `Config.ValidateConfig` for `_validate_config`.

The properties are proved about those functions.

Some behaviour of the code is easy to misread; the model follows the code:

- The two sources treat stale items differently. Lenta's `fetch_news` drops items older than the threshold (core/lenta_parser.py:127-129). RIA keeps them, with an empty `raw_content` (core/ria_parser.py:149-152).
- `raise_for_status` raises for statuses 400-599 only. Any other status, a 3xx reply included, is treated as a success.
- RIA's HTML fallback does not check the status at all (core/ria_parser.py:98). An error page's article container is read like any other.
- RIA's resolution can raise. A truthy JSON body that is not a dict has no `get` (core/ria_parser.py:89), and `_parse_rss_item` then drops the item. Nothing else in resolution or item parsing escapes.

## Model

| member | source | states |
|---|---|---|
| Config.ValidateConfig | core/config.py:69-85 | The check loop stops at the first missing required `common` section and reports what `Validate` decides: AttributeError for a document that is not a dict, ValueError naming the missing section, ValueError when `sources` is not a dict. |
| Config.ValidateDictCommon | core/config.py:75-83 | With `common` a dict, validation passes iff `common` has `system` and `defaults` and `sources` is a dict. A missing `system` is reported before a missing `defaults`. |
| Config.ValidateMissingCommon | core/config.py:77-79 | An absent `common` counts as `{}`, so validation fails with ValueError on `common.system`. |
| Config.GetSourceConfig | core/config.py:102-124 | An unknown source name raises KeyError. The result is Ok iff the source exists and `common['system']`, `common['defaults']`, the source's `raw_prefix` and its channel merge all succeed, and it then holds exactly those four values. Otherwise the error is that of the first failing step, in that order. |
| Config.ValidatedCommonReadable | core/config.py:88-95 | Once validation has passed with `common` a dict, reading `system` and `defaults` from it cannot fail. |
| Config.PrepareChannels | core/config.py:126-135 | The in-place loop returns the merge of every channel in order, or the first exception raised. |
| Config.PrepareAllKeepsChannels | core/config.py:128-135 | A successful merge keeps every channel name in its original order. Each channel gets its own `url` and `category`, and its own `max_news` or else `defaults['max_news']`. |
| Config.PrepareAllFailureSticks | core/config.py:129-134 | An exception while merging a channel aborts the whole merge with that exception. |
| BaseParser.NewParser | core/base_parser.py:21-41 | Without `source_name`, construction raises NotImplementedError. A failing `get_source_config` raises its error. After it succeeds, construction succeeds iff `system['parser_timezone']` is present and a zone pytz accepts, `system['request_timeout']` is present and `defaults['user_agent']` is present. Otherwise the error is that of the first failing step, in that order: the timezone lookup, UnknownTimeZoneError, the timeout lookup, the user-agent lookup. A constructed parser holds the merged config and the zone, timeout and user agent read from it. |
| BaseParser.NewsTemplate | core/base_parser.py:72-86 | The template is a dict with exactly the seven keys, in order. |
| BaseParser.NewsTemplateValues | core/base_parser.py:78-86 | Every template field is `''` except `categories`, which is `[]`. |
| BaseParser.AsDictKeys | core/ria_parser.py:132-142 | Updating the template with a record's fields keeps the template's keys in order. A `description` key, new to the template, goes last. |
| BaseParser.AsDictFields | core/lenta_parser.py:66-73 | After the update, every key of the record's dict reads as the record's field. |
| BaseParser.ExtractNewsId | core/base_parser.py:50-70 | The ID is either the URL unchanged or a non-empty string of digits. |
| BaseParser.LastNumericPartSpec | core/base_parser.py:65-67 | The chosen segment is all digits and no later segment is. There is none iff no segment is all digits, so empty segments are never chosen. |
| BaseParser.BaseIdIsLastDigitSegment | core/base_parser.py:64-67 | Among the path's `/`-segments, the ID is the last one made only of digits, which is never an empty one. When no segment is all digits, the ID is the URL unchanged. |
| BaseParser.BaseIdOnParseError | core/base_parser.py:68-70 | When urlparse raises, the ID is the URL. |
| BaseParser.BaseIdIgnoresQueryAndFragment | core/base_parser.py:65-67 | A query or fragment appended to a URL does not change a numeric ID. |
| UrlParse.PathIgnoresQueryAndFragment | core/base_parser.py:65 | `urlparse(url).path` never includes a query or fragment. |
| UrlParse.PathOfPlainUrl | core/lenta_parser.py:45 | For `scheme://host/path` with a plain host and path, the parsed path is exactly the text after the host. |
| RiaParser.CleanUrl | core/ria_parser.py:52 | The cleaned URL is a prefix of the URL without `?`, `#` or a trailing `/`. The cut is at the first `?` or `#` (or the end of the URL), and everything between the cleaned URL and the cut is `/`. |
| RiaParser.ExtractNewsId | core/ria_parser.py:48-75 | A found ID is a non-empty string of digits. |
| RiaParser.SearchMeaning | core/ria_parser.py:55-68 | Each suffix pattern yields `d` iff the cleaned URL, read up to where `$` matches, ends with the pattern's lead character, the digits `d` and the pattern's tail. |
| RiaParser.FirstLongRunIsLeftmost | core/ria_parser.py:62 | The last-resort pattern matches iff some position starts 8 digits. It then returns the whole run of digits from the leftmost such position. |
| RiaParser.FirstMatchPriority | core/ria_parser.py:65-71 | The ID is pattern i's group iff pattern i matches and no earlier pattern does. No ID iff no pattern matches. |
| RiaParser.FirstMatch | core/ria_parser.py:65-68 | The pattern loop returns the first match's group, which is a non-empty string of digits. |
| RiaParser.SlashEndSubsumed | core/ria_parser.py:59-60 | Whenever `/(\d+)$` matches, the earlier `/(\d+)/?$` matches with the same group, so the former never decides. |
| RiaParser.RiaIdIgnoresQueryAndFragment | core/ria_parser.py:52 | A query or fragment appended to a URL never changes the ID. |
| RiaParser.DashHtmlId | core/ria_parser.py:56 | `.../title-123456.html` gives `123456`. |
| RiaParser.DashSlashId | core/ria_parser.py:52-57 | `.../title-123456`, with any number of trailing slashes, gives `123456`. |
| RiaParser.MakeApiRequest | core/ria_parser.py:32-46 | A reply with a status below 400 or above 599 gives its decoded body (None when it is not JSON), and an answer is only ever such a body. A network failure or a 4xx/5xx status gives None; it never raises. |
| RiaParser.ApiText | core/ria_parser.py:89-90 | `data and data.get('text')` raises iff the body is truthy but not a dict. It gives the `text` value iff that value is present and truthy. |
| RiaParser.ExtractFullText | core/ria_parser.py:77-93 | No request is made iff the URL is a video, gallery or infographics page. A successful resolution last asks the page, or asks the API alone. |
| RiaParser.NonArticleNotFetched | core/ria_parser.py:80-81 | A video, gallery or infographics URL gives `""` with no request. |
| RiaParser.ApiTextWins | core/ria_parser.py:84-90 | With an ID and an API dict whose `text` is truthy, that text is the result, after one API request and no page request. |
| RiaParser.FallbackOtherwise | core/ria_parser.py:84-93 | With no ID, a failed API call, or a missing or empty `text`, the HTML fallback's text is the result. The page is requested last, after the API call when there is an ID. |
| RiaParser.ResolutionRaisesOnlyOnOddBody | core/ria_parser.py:87-89 | Resolution raises iff there is an ID and the API body is truthy but not a dict. |
| RiaParser.ArticleBody | core/ria_parser.py:102-103 | When some div has class `article__body`, the container is the first such div. Otherwise it is the first div with class `article__text`. There is none iff no div has either class. |
| RiaParser.FallbackText | core/ria_parser.py:95-116 | The fallback text never starts or ends with whitespace. A failed request or a page without a container gives `""`. |
| RiaParser.FallbackTextTrimmed | core/ria_parser.py:95-116 | The fallback text never starts or ends with whitespace. It is `""` iff the request failed, there is no container, or every paragraph is blank. |
| RiaParser.NonBlankEmpty | core/ria_parser.py:112 | No paragraph survives the filter iff all paragraphs are blank. |
| RiaParser.ParseRssItem | core/ria_parser.py:118-156 | Without a threshold no entry gives a record. A record has source `ria.ru` and the entry's link as its `url`. |
| RiaParser.ParseRssItemSpec | core/ria_parser.py:118-156 | An entry gives a record iff it has a link, a title and a time and the threshold is known, and a fresh entry's resolution does not raise. The record's fields are listed in full. `raw_content` is resolved only when the entry is at or after the threshold. The dict's keys are the template's plus `description`. |
| RiaParser.RecordIdFallsBackToLink | core/ria_parser.py:135 | A record's ID is a digit string or the link itself, never missing. |
| RiaParser.StaleItemNotFetched | core/ria_parser.py:145-152 | A stale entry's record does not depend on anything the network answers. |
| RiaParser.ChannelItems | core/ria_parser.py:173-175 | A channel gives no more records than the entries it reads. |
| RiaParser.ChannelRecords | core/ria_parser.py:173-175 | The inner loop collects the records of the entries, in feed order, skipping entries that give none. |
| RiaParser.FetchNews | core/ria_parser.py:158-183 | The loop over channels returns the records of every channel in configuration order. A channel is skipped when its feed is malformed or unreadable, or when `max_news` cannot be read or used. |
| RiaParser.NewsConcat | core/ria_parser.py:162-181 | The records of two runs of channels are each run's records, concatenated. A skipped channel does not affect the others. |
| RiaParser.ChannelNewsCapped | core/ria_parser.py:173 | A channel contributes at most `max_news` records, and never more than its feed has entries. |
| RiaParser.NewsAreRecords | core/ria_parser.py:133-142 | Every collected record has source `ria.ru` and a description. Its dict has the template's keys plus `description`. |
| RiaParser.ChannelItemsAreRecords | core/ria_parser.py:173-175 | The same holds for each channel's records. |
| LentaParser.IdOfPath | core/lenta_parser.py:47 | The ID is one of the path's `/`-segments, so it holds no `/`. |
| LentaParser.ExtractNewsId | core/lenta_parser.py:31-50 | The ID is the URL unchanged or holds no `/`. |
| LentaParser.TrailingSlashId | core/lenta_parser.py:47 | A path ending `/seg/` (or just `seg/`) gives `seg`. |
| LentaParser.LastSegmentId | core/lenta_parser.py:47 | A path ending in a non-empty `/seg` (or just `seg`) gives `seg`. |
| LentaParser.EmptyPathIds | core/lenta_parser.py:45-47 | An empty path and the path `/` give the empty ID. |
| LentaParser.SlugOfNewsUrl | core/lenta_parser.py:34-47 | A URL shaped `https://lenta.ru/news/2024/05/15/coffee/` gives its slug, `coffee`. |
| LentaParser.LentaIdIgnoresQueryAndFragment | core/lenta_parser.py:45-47 | A query or fragment appended to a URL does not change the ID. |
| LentaParser.LentaIdOnParseError | core/lenta_parser.py:48-50 | When urlparse raises, the ID is the URL. |
| LentaParser.NewsUrlMeaning | core/lenta_parser.py:103-105 | `_is_news_url` holds iff `lenta.ru/news` occurs at some position of the URL and neither `/video/` nor `/photo/` occurs at any position. |
| LentaParser.ExtractFullText | core/lenta_parser.py:80-101 | At most one request is made, for the article itself, and only for a news URL. A non-empty text comes only from that request. |
| LentaParser.NonNewsUrlNotFetched | core/lenta_parser.py:82-83 | A URL that is not a news URL gives `""` with no request. |
| LentaParser.FullTextEmptyOnFailure | core/lenta_parser.py:91-101 | A failed request, a 4xx/5xx status or a page without `topic-body__content` gives `""`. |
| LentaParser.FullTextOfContainer | core/lenta_parser.py:85-97 | A news page with a non-error status and the container gives the container's stripped paragraphs joined by spaces, after one request. |
| LentaParser.ContentKeepsBlankParagraphs | core/lenta_parser.py:97 | Blank paragraphs are not filtered. The text's length is the stripped lengths plus one space between each pair of paragraphs. The text is `""` iff there is no paragraph or one blank one. |
| LentaParser.ParseRssItem | core/lenta_parser.py:52-78 | An item gives a record iff it has a date that parses, a link and a title. |
| LentaParser.ParseRssItemSpec | core/lenta_parser.py:52-78 | An item gives a record iff it has a parsable date, a link and a title. The link and title are trimmed, the ID comes from the trimmed link, the category is the channel's alone, and `raw_content` is `""`. The dict has exactly the template's keys. |
| LentaParser.ChannelRecords | core/lenta_parser.py:125-129 | The inner loop collects, in document order, the record of each fresh item with its text filled in. |
| LentaParser.FreshRecord | core/lenta_parser.py:126-129 | One item appends its record, with `raw_content` set to its article's text, iff it parses and is at or after the threshold; otherwise nothing. |
| LentaParser.ChannelItemsFresh | core/lenta_parser.py:126-129 | Every record a channel contributes is fresh, comes from lenta.ru without a description, and carries its own article's text. |
| LentaParser.FetchNews | core/lenta_parser.py:107-136 | It returns `[]` when the threshold cannot be computed. Otherwise it returns every channel's fresh records in configuration order. A channel is skipped on a missing user agent or timeout, a failed or 4xx/5xx request, or an unusable `max_news`. |
| LentaParser.Run | core/lenta_parser.py:138-149 | It raises RuntimeError iff nothing was collected, in particular when the threshold cannot be computed. Otherwise the collected records are what is saved. |
| LentaParser.NewsConcat | core/lenta_parser.py:115-131 | The records of two runs of channels are each run's records, concatenated. A failing channel does not affect the others. |
| LentaParser.ChannelNewsCapped | core/lenta_parser.py:125 | A channel contributes at most `max_news` records, and never more than its document has items. |
| LentaParser.StaleItemDropped | core/lenta_parser.py:127-129 | An item published before the threshold contributes nothing, and its page is not fetched. |
| LentaParser.NewsAreFresh | core/lenta_parser.py:126-129 | Every collected record is at or after the threshold and comes from lenta.ru without a description. Its `raw_content` is its own article's text. |

## Left out

- HTTP (`requests`, `Session`), `feedparser.parse` and BeautifulSoup are inputs, not code: a reply per URL, a parsed feed or RSS document per channel, and a page's divs with paragraph texts. Request headers, timeouts and the removal of `script`/`style`/`iframe` content are not modelled. BeautifulSoup's `p.text` is taken as given.
- The `div.article__info` entry in RIA's fallback is passed as a tag name, so it removes nothing. The model removes nothing for it either.
- The RIA rate limiter (5 calls per second, blocking) is recorded as a constant only. `REQUEST_LIMIT` is unused in the source.
- Clocks and time zones:
  - `datetime.now`, `pytz` conversion, `time.mktime` and `strptime` are not modelled. A publication time is an integer timestamp, or absent when the source would fail to compute it.
  - The threshold `now - lookback_hours` is a parameter, absent when `lookback_hours` is missing or unusable.
  - `pub_date` is stored as that integer, not as an ISO string.
- RiaParser.ParseRssItem: the source reads the clock once per item; the model uses one threshold for every item of a run.
- `\d` and `str.isdigit()` are modelled for ASCII digits only. Other Unicode decimal digits, which Python also accepts, are not modelled.
- UrlParse.UrlPath: the NFKC netloc check, bracketed (IPv6) hosts beyond the bracket-balance check, and `urlparse`'s cache are not modelled.
- `BaseParser._setup`: it is never called in the source, so it is not modelled.
- `BaseParser._save_raw_data` and `ConfigLoader._load_config`: file I/O is not modelled. So are the YAML and JSON handling, all logging, `main.py` and `src/main.py`. `run` is modelled up to the point where the records are saved.
- `_parse_rss_item` looks up the channel's category through `source_config['rss_channels'][channel_name]`. The model passes the category of the channel being iterated, which is the same entry.
- Records are modelled as `NewsItem` values. Their dict form, `BaseParser.AsDict`, is related to the template update by lemmas, not built at run time.
