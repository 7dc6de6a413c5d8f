/** `LentaParser` (core/lenta_parser.py): IDs from the last path segment,
    full text from the article page, and a channel loop that keeps only
    items published since the threshold. */
module LentaParser {
  import opened Wrappers
  import opened Text
  import opened PyValues
  import opened Web
  import opened Config
  import BaseParser
  import UrlParse

  /** The class attribute `source_name`. */
  const SourceName: string := "lenta.ru"

  /** The message of the `RuntimeError` `run` raises when nothing was collected. */
  const NoNewsMessage: string := "Новости не получены"

  // ---------------------------------------------------------------------
  // News IDs

  /** A path ending in `/` splits into at least two segments. */
  lemma SlashEndSplits(path: string)
    requires EndsWith(path, "/")
    ensures |Split(path, '/')| >= 2
  {
    var a := path[..|path| - 1];
    assert path == a + ['/'] + [];
    SplitAround(a, [], '/');
  }

  /** The ID `_extract_news_id` reads from a path: the second-to-last
      `/`-segment when the path ends in `/`, else the last one. It is one of
      the path's segments, so it never holds a `/`. */
  function IdOfPath(path: string): (r: string)
    ensures r in Split(path, '/') && '/' !in r
  {
    var parts := Split(path, '/');
    if EndsWith(path, "/") then
      SlashEndSplits(path);
      parts[|parts| - 2]
    else parts[|parts| - 1]
  }

  /** `LentaParser._extract_news_id`: the ID of the URL's path, or the URL
      unchanged when urlparse raises. */
  function ExtractNewsId(url: string): (r: string)
    ensures r == url || '/' !in r
  {
    match UrlParse.UrlPath(url)
    case None => url
    case Some(path) => IdOfPath(path)
  }

  /** A path ending in `/` gives the segment before that slash. */
  lemma TrailingSlashId(prefix: string, seg: string)
    requires '/' !in seg
    ensures IdOfPath(prefix + "/" + seg + "/") == seg
    ensures IdOfPath(seg + "/") == seg
  {
    SplitNoSep(seg, '/');
    var a := prefix + "/" + seg;
    assert a + "/" == a + ['/'] + [];
    SplitAround(a, [], '/');
    assert a == prefix + ['/'] + seg;
    SplitAround(prefix, seg, '/');
    assert EndsWith(a + "/", "/");
    assert seg + "/" == seg + ['/'] + [];
    SplitAround(seg, [], '/');
    assert EndsWith(seg + "/", "/");
  }

  /** A path not ending in `/` gives its last segment. */
  lemma LastSegmentId(prefix: string, seg: string)
    requires '/' !in seg && seg != []
    ensures IdOfPath(prefix + "/" + seg) == seg
    ensures IdOfPath(seg) == seg
  {
    SplitNoSep(seg, '/');
    var path := prefix + "/" + seg;
    assert path == prefix + ['/'] + seg;
    SplitAround(prefix, seg, '/');
    assert seg[|seg| - 1] in seg;
    assert path[|path| - 1] == seg[|seg| - 1];
    assert !EndsWith(path, "/");
    assert !EndsWith(seg, "/");
  }

  /** An empty path and the path `/` give the empty ID. */
  lemma EmptyPathIds()
    ensures IdOfPath("") == ""
    ensures IdOfPath("/") == ""
  {
    assert "/" == [] + ['/'] + [];
    SplitAround([], [], '/');
  }

  /** Characters urlparse keeps in a path without cutting it short. */
  predicate PlainPathChar(c: char) {
    c > ' ' && c != '?' && c != '#' && c != ';'
  }

  lemma PlainSlugPath(prefix: string, slug: string)
    requires forall i :: 0 <= i < |prefix| ==> PlainPathChar(prefix[i])
    requires forall i :: 0 <= i < |slug| ==> PlainPathChar(slug[i])
    ensures var path := prefix + "/" + slug + "/";
      forall i :: 0 <= i < |path| ==> path[i] > ' ' && path[i] != '?' && path[i] != '#' && path[i] != ';'
  {
    var path := prefix + "/" + slug + "/";
    forall i | 0 <= i < |path|
      ensures PlainPathChar(path[i])
    {
      if i < |prefix| {
        assert path[i] == prefix[i];
      } else if |prefix| < i < |prefix| + 1 + |slug| {
        assert path[i] == slug[i - |prefix| - 1];
      }
    }
  }

  /** The documented URL shape, `https://lenta.ru/news/2024/05/15/coffee/`
      giving `coffee`: for a URL `scheme://host/.../slug/` with a plain host
      and a path without `?`, `#` or `;`, the ID is the slug. */
  lemma SlugOfNewsUrl(scheme: string, host: string, prefix: string, slug: string)
    requires scheme in UrlParse.UsesParams && scheme != []
    requires forall i :: 0 <= i < |scheme| ==> 'a' <= scheme[i] <= 'z'
    requires forall i :: 0 <= i < |host| ==> host[i] > ' ' && host[i] != '/' && host[i] != '?'
                                             && host[i] != '#' && host[i] != '[' && host[i] != ']'
    requires prefix == [] || prefix[0] == '/'
    requires forall i :: 0 <= i < |prefix| ==> PlainPathChar(prefix[i])
    requires forall i :: 0 <= i < |slug| ==> PlainPathChar(slug[i])
    requires '/' !in slug
    ensures ExtractNewsId(scheme + "://" + host + (prefix + "/" + slug + "/")) == slug
  {
    var path := prefix + "/" + slug + "/";
    PlainSlugPath(prefix, slug);
    assert path == [] || path[0] == '/';
    UrlParse.PathOfPlainUrl(scheme, host, path);
    TrailingSlashId(prefix, slug);
  }

  /** Only the parsed path counts: a query or fragment appended to a URL
      without either does not change the ID. */
  lemma LentaIdIgnoresQueryAndFragment(u: string, t: string)
    requires '?' !in u && '#' !in u
    requires t != [] && (t[0] == '?' || t[0] == '#')
    requires UrlParse.UrlPath(u).Some?
    ensures ExtractNewsId(u + t) == ExtractNewsId(u)
  {
    UrlParse.PathIgnoresQueryAndFragment(u, t);
  }

  /** When urlparse raises, the ID is the URL unchanged. */
  lemma LentaIdOnParseError(url: string)
    requires UrlParse.UrlPath(url).None?
    ensures ExtractNewsId(url) == url
  {
  }

  // ---------------------------------------------------------------------
  // Full text

  /** `LentaParser._is_news_url`. */
  predicate IsNewsUrl(url: string) {
    Contains(url, "lenta.ru/news") && !Contains(url, "/video/") && !Contains(url, "/photo/")
  }

  /** `_is_news_url` read as occurrences: `lenta.ru/news` occurs somewhere
      in the URL, and neither `/video/` nor `/photo/` occurs anywhere. */
  lemma NewsUrlMeaning(url: string)
    ensures IsNewsUrl(url) <==>
      && (exists i :: OccursAt(url, "lenta.ru/news", i))
      && (forall i :: !OccursAt(url, "/video/", i))
      && (forall i :: !OccursAt(url, "/photo/", i))
  {
    ContainsAt(url, "lenta.ru/news");
    ContainsAt(url, "/video/");
    ContainsAt(url, "/photo/");
  }

  /** The text found for an article, and the requests made on the way. */
  datatype FullText = FullText(text: string, requests: seq<Request>)

  /** The paragraphs' texts, each stripped. */
  function Stripped(paragraphs: seq<string>): (r: seq<string>)
    ensures |r| == |paragraphs|
  {
    seq(|paragraphs|, i requires 0 <= i < |paragraphs| => Strip(paragraphs[i]))
  }

  /** The article's text: every paragraph stripped and joined by single
      spaces, blank ones included. */
  function ContentText(paragraphs: seq<string>): string {
    Join(Stripped(paragraphs), " ")
  }

  /** `LentaParser._extract_full_text`: only news URLs are fetched (with the
      configured user agent and timeout, which must be present); a failed
      request, a 4xx or 5xx status or a page without `topic-body__content`
      gives "". Nothing else is ever requested, and a non-empty text comes
      only from a fetched page. */
  function ExtractFullText(url: string, config: SourceConfig, page: string -> Http<HtmlPage>): (r: FullText)
    ensures r.requests == [] || r.requests == [PageGet(url)]
    ensures r.requests != [] ==> IsNewsUrl(url)
    ensures r.text != [] ==> r.requests == [PageGet(url)]
  {
    if !IsNewsUrl(url) then FullText("", [])
    else if Index(config.defaults, "user_agent").Err? || Index(config.system, "request_timeout").Err? then FullText("", [])
    else match page(url)
      case NetworkError => FullText("", [PageGet(url)])
      case Reply(status, html) =>
        if RaisesForStatus(status) then FullText("", [PageGet(url)])
        else match FindDiv(html, "topic-body__content")
          case None => FullText("", [PageGet(url)])
          case Some(content) => FullText(ContentText(content.paragraphs), [PageGet(url)])
  }

  /** A URL that is not a news article gives "" and no request. */
  lemma NonNewsUrlNotFetched(url: string, config: SourceConfig, page: string -> Http<HtmlPage>)
    requires !IsNewsUrl(url)
    ensures ExtractFullText(url, config, page) == FullText("", [])
  {
  }

  /** A failed request, an error status or a missing container gives "". */
  lemma FullTextEmptyOnFailure(url: string, config: SourceConfig, page: string -> Http<HtmlPage>)
    requires page(url).NetworkError?
          || (page(url).Reply? && RaisesForStatus(page(url).status))
          || (page(url).Reply? && FindDiv(page(url).body, "topic-body__content").None?)
    ensures ExtractFullText(url, config, page).text == ""
  {
  }

  /** A news page that loads with a non-error status and has the container
      gives the container's text, read with one request. */
  lemma FullTextOfContainer(url: string, config: SourceConfig, page: string -> Http<HtmlPage>, content: Div)
    requires IsNewsUrl(url)
    requires Index(config.defaults, "user_agent").Ok? && Index(config.system, "request_timeout").Ok?
    requires page(url).Reply? && !RaisesForStatus(page(url).status)
    requires FindDiv(page(url).body, "topic-body__content") == Some(content)
    ensures ExtractFullText(url, config, page) == FullText(ContentText(content.paragraphs), [PageGet(url)])
  {
  }

  /** Blank paragraphs are not filtered out: each paragraph adds its stripped
      text and one separating space, so the text is empty only when there
      is no paragraph or a single blank one. */
  lemma ContentKeepsBlankParagraphs(paragraphs: seq<string>)
    ensures paragraphs != [] ==>
      |ContentText(paragraphs)| == TotalLength(Stripped(paragraphs)) + |paragraphs| - 1
    ensures ContentText(paragraphs) == "" <==>
      paragraphs == [] || (|paragraphs| == 1 && Strip(paragraphs[0]) == "")
  {
    if paragraphs != [] {
      JoinLength(Stripped(paragraphs), " ");
    }
  }

  // ---------------------------------------------------------------------
  // Feed items

  /** One `<item>` of a channel's RSS document: the text of its `link` and
      `title` elements when present, and its `pubDate` as a timestamp when
      present and of the form `%a, %d %b %Y %H:%M:%S %z`. */
  datatype Item = Item(pubDate: Option<int>, link: Option<string>, title: Option<string>)

  /** What the parser receives from outside: each channel's RSS document (the
      request for a channel's `url`, its `<item>` elements once parsed) and
      each article page. */
  datatype LentaWeb = LentaWeb(channel: Py -> Http<seq<Item>>, page: string -> Http<HtmlPage>)

  /** `LentaParser._parse_rss_item` for an item of a channel whose category
      is `category`: None when the date, link or title is missing or the
      date does not parse. */
  function ParseRssItem(item: Item, category: Py): (r: Option<BaseParser.NewsItem>)
    ensures r.Some? <==> item.pubDate.Some? && item.link.Some? && item.title.Some?
  {
    if item.pubDate.None? || item.link.None? || item.title.None? then None
    else
      var url := Strip(item.link.value);
      Some(BaseParser.NewsItem(SourceName, ExtractNewsId(url), Strip(item.title.value), url,
                               item.pubDate.value, [category], PyStr(""), None))
  }

  /** When `_parse_rss_item` gives a record, and what it holds: the trimmed
      link as `url` and as the source of the ID, the trimmed title, the
      channel's category alone, and no text yet. Its dict has exactly the
      template's keys. */
  lemma ParseRssItemSpec(item: Item, category: Py)
    ensures ParseRssItem(item, category).Some? <==> item.pubDate.Some? && item.link.Some? && item.title.Some?
    ensures var r := ParseRssItem(item, category);
      r.Some? ==>
        && r.value.source == SourceName
        && r.value.url == Strip(item.link.value)
        && r.value.id == ExtractNewsId(Strip(item.link.value))
        && r.value.title == Strip(item.title.value)
        && r.value.pubDate == item.pubDate.value
        && r.value.categories == [category]
        && r.value.rawContent == PyStr("")
        && r.value.description.None?
        && Keys(BaseParser.AsDict(r.value)) == BaseParser.TemplateKeys
  {
    var r := ParseRssItem(item, category);
    if r.Some? {
      BaseParser.AsDictKeys(r.value);
      assert BaseParser.TemplateKeys + [] == BaseParser.TemplateKeys;
    }
  }

  // ---------------------------------------------------------------------
  // The channel loop

  /** What the inner loop of `fetch_news` appends for one item: nothing
      unless it parses and was published at or after the threshold, and
      then its record with the article's text as `raw_content`. */
  function ItemNews(item: Item, category: Py, config: SourceConfig, page: string -> Http<HtmlPage>, threshold: int): seq<BaseParser.NewsItem> {
    match ParseRssItem(item, category)
    case None => []
    case Some(x) =>
      if x.pubDate >= threshold then [x.(rawContent := PyStr(ExtractFullText(x.url, config, page).text))]
      else []
  }

  /** The records of a channel's items, in document order. */
  function ChannelItems(items: seq<Item>, category: Py, config: SourceConfig, page: string -> Http<HtmlPage>, threshold: int): (r: seq<BaseParser.NewsItem>)
    ensures |r| <= |items|
    decreases |items|
  {
    if items == [] then []
    else
      ChannelItems(items[..|items| - 1], category, config, page, threshold)
      + ItemNews(items[|items| - 1], category, config, page, threshold)
  }

  /** One channel's records, or None when the channel is skipped: the user
      agent or the request timeout is not configured, the request fails or
      answers 4xx/5xx, `defaults['max_news']` (evaluated eagerly as the `get`
      default) is missing, or the channel's `max_news` cannot bound a slice. */
  function ChannelNews(ch: Channel, config: SourceConfig, web: LentaWeb, threshold: int): Option<seq<BaseParser.NewsItem>> {
    if Index(config.defaults, "user_agent").Err? || Index(config.system, "request_timeout").Err? then None
    else match web.channel(ch.url)
      case NetworkError => None
      case Reply(status, items) =>
        if RaisesForStatus(status) then None
        else match Index(config.defaults, "max_news")
          case Err(_) => None
          case Ok(_) =>
            match SliceTo(items, ch.maxNews)
            case Err(_) => None
            case Ok(firsts) => Some(ChannelItems(firsts, ch.category, config, web.page, threshold))
  }

  /** Every channel's records, channel after channel in configuration order. */
  function News(channels: seq<(string, Channel)>, config: SourceConfig, web: LentaWeb, threshold: int): seq<BaseParser.NewsItem> {
    BaseParser.Collect(channels, (c: (string, Channel)) => ChannelNews(c.1, config, web, threshold).GetOr([]))
  }

  /** What `fetch_news` returns: [] when the threshold cannot be computed
      (the outer handler), else every channel's records. */
  function Collected(p: BaseParser.Parser, web: LentaWeb, threshold: Option<int>): seq<BaseParser.NewsItem> {
    match threshold
    case None => []
    case Some(t) => News(p.config.channels, p.config, web, t)
  }

  /** The body of the inner loop for one item: parse it, and if it is fresh,
      fill in its text; what is to be appended comes back. */
  method FreshRecord(item: Item, category: Py, config: SourceConfig, page: string -> Http<HtmlPage>, threshold: int)
    returns (appended: seq<BaseParser.NewsItem>)
    ensures appended == ItemNews(item, category, config, page, threshold)
  {
    var parsed := ParseRssItem(item, category);
    if parsed.Some? && parsed.value.pubDate >= threshold {
      var record := parsed.value;
      record := record.(rawContent := PyStr(ExtractFullText(record.url, config, page).text));
      appended := [record];
    } else {
      appended := [];
    }
  }

  /** The inner loop of `fetch_news`: each fresh item's record, its text
      filled in, collected in document order. */
  method ChannelRecords(items: seq<Item>, category: Py, config: SourceConfig, page: string -> Http<HtmlPage>, threshold: int)
    returns (records: seq<BaseParser.NewsItem>)
    ensures records == ChannelItems(items, category, config, page, threshold)
  {
    records := [];
    for j := 0 to |items|
      invariant records == ChannelItems(items[..j], category, config, page, threshold)
    {
      var appended := FreshRecord(items[j], category, config, page, threshold);
      ChannelItemsStep(items, j, category, config, page, threshold);
      records := records + appended;
    }
    assert items[..|items|] == items;
  }

  /** The records of one more item extend those of the items before it. */
  lemma ChannelItemsStep(items: seq<Item>, j: nat, category: Py, config: SourceConfig,
                         page: string -> Http<HtmlPage>, threshold: int)
    requires j < |items|
    ensures ChannelItems(items[..j + 1], category, config, page, threshold)
            == ChannelItems(items[..j], category, config, page, threshold) + ItemNews(items[j], category, config, page, threshold)
  {
    var prefix := items[..j + 1];
    assert prefix[..|prefix| - 1] == items[..j] && prefix[|prefix| - 1] == items[j];
  }

  /** `LentaParser.fetch_news`: the threshold is fixed once, then the channels
      are read in configuration order, each either skipped or contributing
      its fresh records. */
  method FetchNews(p: BaseParser.Parser, web: LentaWeb, threshold: Option<int>) returns (news: seq<BaseParser.NewsItem>)
    ensures news == Collected(p, web, threshold)
  {
    if threshold.None? {
      return [];
    }
    var t := threshold.value;
    var config := p.config;
    var channels := config.channels;
    news := [];
    for c := 0 to |channels|
      invariant news == News(channels[..c], config, web, t)
    {
      assert channels[..c + 1][..c] == channels[..c];
      var ch := channels[c].1;
      if Index(config.defaults, "user_agent").Ok? && Index(config.system, "request_timeout").Ok? {
        var reply := web.channel(ch.url);
        if reply.Reply? && !RaisesForStatus(reply.status) && Index(config.defaults, "max_news").Ok? {
          var firsts := SliceTo(reply.body, ch.maxNews);
          if firsts.Ok? {
            var records := ChannelRecords(firsts.value, ch.category, config, web.page, t);
            news := news + records;
          }
        }
      }
    }
    assert channels[..|channels|] == channels;
  }

  /** `LentaParser.run` up to saving: no records at all raises
      `RuntimeError`, so in particular does a threshold that cannot be
      computed; otherwise the records are what gets saved. */
  method Run(p: BaseParser.Parser, web: LentaWeb, threshold: Option<int>) returns (r: Result<seq<BaseParser.NewsItem>, PyError>)
    ensures r.Err? <==> Collected(p, web, threshold) == []
    ensures r.Err? ==> r.error == RuntimeError(NoNewsMessage)
    ensures r.Ok? ==> r.value == Collected(p, web, threshold)
    ensures threshold.None? ==> r.Err?
  {
    var news := FetchNews(p, web, threshold);
    if news == [] {
      return Err(RuntimeError(NoNewsMessage));
    }
    return Ok(news);
  }

  /** A failing channel does not stop the others: the records of two runs of
      channels are those of each, concatenated. */
  lemma NewsConcat(a: seq<(string, Channel)>, b: seq<(string, Channel)>, config: SourceConfig, web: LentaWeb, threshold: int)
    ensures News(a + b, config, web, threshold) == News(a, config, web, threshold) + News(b, config, web, threshold)
  {
    BaseParser.CollectConcat(a, b, (c: (string, Channel)) => ChannelNews(c.1, config, web, threshold).GetOr([]));
  }

  /** At most `max_news` items of a channel are read, so a non-negative
      `max_news` bounds the channel's records. */
  lemma ChannelNewsCapped(ch: Channel, config: SourceConfig, web: LentaWeb, threshold: int)
    requires ChannelNews(ch, config, web, threshold).Some?
    ensures ch.maxNews.PyInt? && ch.maxNews.i >= 0 ==> |ChannelNews(ch, config, web, threshold).value| <= ch.maxNews.i
    ensures |ChannelNews(ch, config, web, threshold).value| <= |web.channel(ch.url).body|
  {
  }

  /** A stale item is dropped without fetching its page. */
  lemma StaleItemDropped(item: Item, category: Py, config: SourceConfig, page: string -> Http<HtmlPage>, threshold: int)
    requires item.pubDate.Some? && item.pubDate.value < threshold
    ensures ItemNews(item, category, config, page, threshold) == []
  {
  }

  /** Every record collected is fresh, from lenta.ru, without `description`,
      and holds its own article's text. */
  lemma NewsAreFresh(channels: seq<(string, Channel)>, config: SourceConfig, web: LentaWeb, threshold: int)
    ensures forall x <- News(channels, config, web, threshold) ::
      && x.pubDate >= threshold && x.source == SourceName && x.description.None?
      && x.rawContent == PyStr(ExtractFullText(x.url, config, web.page).text)
  {
    var chStep := (c: (string, Channel)) => ChannelNews(c.1, config, web, threshold).GetOr([]);
    forall x <- News(channels, config, web, threshold)
      ensures && x.pubDate >= threshold && x.source == SourceName && x.description.None?
              && x.rawContent == PyStr(ExtractFullText(x.url, config, web.page).text)
    {
      BaseParser.CollectMember(channels, chStep, x);
      var c :| c in channels && x in chStep(c);
      var ch := c.1;
      var firsts := SliceTo(web.channel(ch.url).body, ch.maxNews).value;
      ChannelItemsFresh(firsts, ch.category, config, web.page, threshold);
    }
  }

  /** Each channel's records are fresh, from lenta.ru, without `description`,
      and hold their own article's text. */
  lemma {:induction false} ChannelItemsFresh(items: seq<Item>, category: Py, config: SourceConfig,
                                              page: string -> Http<HtmlPage>, threshold: int)
    ensures forall x <- ChannelItems(items, category, config, page, threshold) ::
      && x.pubDate >= threshold && x.source == SourceName && x.description.None?
      && x.rawContent == PyStr(ExtractFullText(x.url, config, page).text)
    decreases |items|
  {
    if items != [] {
      ChannelItemsFresh(items[..|items| - 1], category, config, page, threshold);
    }
  }
}
