/** The RIA.ru parser (`RiaParser`): article IDs from URL patterns (six anchored at the end),
    full text from the JSON API with an HTML fallback, and the channel loop
    over RSS feeds read by feedparser. */
module RiaParser {
  import opened Wrappers
  import opened Text
  import opened PyValues
  import opened Web
  import opened Config
  import BaseParser
  import UrlParse

  const SourceName: string := "ria.ru"
  const ApiBaseUrl: string := "https://ria.ru/api/"
  /** The rate limit on API requests (calls per second); its blocking is not modelled. */
  const ApiCallsPerSecond: nat := 5

  // ---------------------------------------------------------------------
  // Article IDs

  /** The URL cut before the first `?`, then before the first `#`, with
      every trailing `/` removed. */
  function CleanUrl(url: string): (r: string)
    ensures |r| <= |url| && r == url[..|r|]
    ensures '?' !in r && '#' !in r
    ensures r == [] || r[|r| - 1] != '/'
    ensures exists cut :: QueryStart(url, cut) && |r| <= cut && forall i :: |r| <= i < cut ==> url[i] == '/'
  {
    CleanUrlCut(url);
    RStripChar(BeforeFirst(BeforeFirst(url, '?'), '#'), '/')
  }

  /** `cut` is where the query or fragment starts: the first `?` or `#`, or
      the end of the URL. */
  predicate QueryStart(url: string, cut: int) {
    && 0 <= cut <= |url|
    && (forall i :: 0 <= i < cut ==> url[i] != '?' && url[i] != '#')
    && (cut == |url| || url[cut] == '?' || url[cut] == '#')
  }

  /** The text kept before `?` and `#` ends where the query or fragment
      starts, and stripping its slashes removes only `/` before that point. */
  lemma CleanUrlCut(url: string)
    ensures var r := RStripChar(BeforeFirst(BeforeFirst(url, '?'), '#'), '/');
      && |r| <= |url| && r == url[..|r|]
      && '?' !in r && '#' !in r
      && exists cut :: QueryStart(url, cut) && |r| <= cut && forall i :: |r| <= i < cut ==> url[i] == '/'
  {
    var query := BeforeFirst(url, '?');
    var cut := BeforeFirst(query, '#');
    var r := RStripChar(cut, '/');
    forall i | 0 <= i < |cut|
      ensures url[i] == cut[i] && url[i] != '?' && url[i] != '#'
    {
      assert cut[i] == query[i] && query[i] == url[i];
      assert query[i] in query && cut[i] in cut;
    }
    if |cut| < |query| {
      assert url[|cut|] == query[|cut|];
    }
    assert QueryStart(url, |cut|);
    assert r == url[..|r|];
    assert '?' !in r && '#' !in r by {
      forall c | c in r
        ensures c != '?' && c != '#'
      {
        var i :| 0 <= i < |r| && r[i] == c;
        assert url[i] == c;
      }
    }
  }

  /** The text before the position where a regex `$` matches: the end of the
      string, or just before a final newline. */
  function AnchorView(s: string): (r: string)
    ensures r == s || (s == r + "\n")
  {
    if s != [] && s[|s| - 1] == '\n' then s[..|s| - 1] else s
  }

  /** The RIA URL patterns, in the order they are tried. */
  datatype Pattern =
    | DashHtml        // -(\d+)\.html$
    | DashSlash       // -(\d+)/?$
    | SlashHtml       // /(\d+)\.html$
    | SlashSlash      // /(\d+)/?$
    | SlashEnd        // /(\d+)$
    | UnderscoreHtml  // _(\d+)\.html$
    | LongRun         // (\d{8,})

  const Patterns: seq<Pattern> := [DashHtml, DashSlash, SlashHtml, SlashSlash, SlashEnd, UnderscoreHtml, LongRun]

  /** The digits that end `body` right after a `lead` character, if any. */
  function DigitsAfter(body: string, lead: char): (r: Option<string>)
    ensures r.Some? ==> AllDigits(r.value)
  {
    var d := TrailingDigits(body);
    if d != [] && |d| < |body| && body[|body| - |d| - 1] == lead then Some(d) else None
  }

  /** `body` without one final `/` (the optional `/?` before `$`). */
  function DropSlash(s: string): string {
    if s != [] && s[|s| - 1] == '/' then s[..|s| - 1] else s
  }

  /** `body` without a final `.html`, or None when it does not end so. */
  function DropHtml(s: string): Option<string> {
    if EndsWith(s, ".html") then Some(s[..|s| - 5]) else None
  }

  /** Where `s` has 8 digits in a row from position `q` on. */
  predicate LongRunAt(s: string, q: int) {
    0 <= q && q + 8 <= |s| && forall j :: q <= j < q + 8 ==> IsDigit(s[j])
  }

  /** `re.search(r'(\d{8,})', s)`: the digits from the leftmost position
      where 8 digits begin, taken greedily. */
  function FirstLongRun(s: string): (r: Option<string>)
    ensures r.Some? ==> AllDigits(r.value) && |r.value| >= 8
    decreases |s|
  {
    if |s| < 8 then None
    else
      var d := LeadingDigits(s);
      if |d| >= 8 then Some(d) else FirstLongRun(s[1..])
  }

  /** `re.search(pattern, s).group(1)`, or None when the pattern does not match. */
  function Search(p: Pattern, s: string): (r: Option<string>)
    ensures r.Some? ==> AllDigits(r.value)
  {
    var core := AnchorView(s);
    match p
    case DashHtml => (match DropHtml(core) case Some(b) => DigitsAfter(b, '-') case None => None)
    case DashSlash => DigitsAfter(DropSlash(core), '-')
    case SlashHtml => (match DropHtml(core) case Some(b) => DigitsAfter(b, '/') case None => None)
    case SlashSlash => DigitsAfter(DropSlash(core), '/')
    case SlashEnd => DigitsAfter(core, '/')
    case UnderscoreHtml => (match DropHtml(core) case Some(b) => DigitsAfter(b, '_') case None => None)
    case LongRun => FirstLongRun(s)
  }

  /** The group of the first pattern of `ps` that matches `s`: the loop over
      the patterns returns as soon as one matches, and what it returns is a
      non-empty string of digits. */
  function FirstMatch(ps: seq<Pattern>, s: string): (r: Option<string>)
    ensures r.Some? ==> AllDigits(r.value)
    decreases |ps|
  {
    if ps == [] then None
    else match Search(ps[0], s)
      case Some(d) => Some(d)
      case None => FirstMatch(ps[1..], s)
  }

  /** `RiaParser._extract_news_id`: the first pattern that matches the cleaned
      URL decides the ID; None when none matches. */
  function ExtractNewsId(url: string): (r: Option<string>)
    ensures r.Some? ==> AllDigits(r.value)
  {
    FirstMatch(Patterns, CleanUrl(url))
  }

  /** The reference reading of a suffix pattern: `core` ends with `lead`,
      the digits `d` and then `tail`. */
  predicate EndsWithGroup(core: string, lead: char, d: string, tail: string) {
    AllDigits(d) && EndsWith(core, [lead] + d + tail)
  }

  /** What each pattern means, as a regex would read it against the text
      before the `$` position; the last-resort pattern is characterised in
      `FirstLongRunIsLeftmost`. */
  predicate Matches(p: Pattern, s: string, d: string)
    requires !p.LongRun?
  {
    var core := AnchorView(s);
    match p
    case DashHtml => EndsWithGroup(core, '-', d, ".html")
    case DashSlash => EndsWithGroup(core, '-', d, "") || EndsWithGroup(core, '-', d, "/")
    case SlashHtml => EndsWithGroup(core, '/', d, ".html")
    case SlashSlash => EndsWithGroup(core, '/', d, "") || EndsWithGroup(core, '/', d, "/")
    case SlashEnd => EndsWithGroup(core, '/', d, "")
    case UnderscoreHtml => EndsWithGroup(core, '_', d, ".html")
  }

  /** The trailing digits of a string are determined by any all-digit suffix
      that a non-digit precedes. */
  lemma TrailingDigitsUnique(body: string, lead: char, d: string)
    requires !IsDigit(lead) && AllDigits(d) && EndsWith(body, [lead] + d)
    ensures TrailingDigits(body) == d
  {
    var r := TrailingDigits(body);
    var n := |body|;
    var m := |d|;
    var g := body[n - m - 1..];
    assert g == [lead] + d;
    assert body[n - m - 1] == lead && body[n - m..] == d by {
      assert g[0] == lead && g[1..] == d;
    }
    assert |r| == m;
  }

  /** `DigitsAfter` finds exactly the digit groups a `lead` introduces at the end. */
  lemma DigitsAfterMeaning(body: string, lead: char, d: string)
    requires !IsDigit(lead)
    ensures DigitsAfter(body, lead) == Some(d) <==> EndsWithGroup(body, lead, d, "")
  {
    assert [lead] + d + "" == [lead] + d;
    if EndsWithGroup(body, lead, d, "") {
      TrailingDigitsUnique(body, lead, d);
      assert body[|body| - |d| - 1] == ([lead] + d)[0];
    }
    if DigitsAfter(body, lead) == Some(d) {
      assert body[|body| - |d| - 1..] == [lead] + d;
    }
  }

  lemma DropHtmlMeaning(core: string, lead: char, d: string)
    requires !IsDigit(lead)
    ensures (match DropHtml(core) case Some(b) => DigitsAfter(b, lead) case None => None) == Some(d)
            <==> EndsWithGroup(core, lead, d, ".html")
  {
    if EndsWith(core, ".html") {
      var b := core[..|core| - 5];
      DigitsAfterMeaning(b, lead, d);
      assert core == b + ".html";
      if EndsWith(b, [lead] + d) {
        assert core[|core| - |[lead] + d + ".html"|..] == b[|b| - |[lead] + d|..] + ".html";
      }
      if EndsWith(core, [lead] + d + ".html") {
        assert b[|b| - |[lead] + d|..] == core[|core| - |[lead] + d + ".html"|..|core| - 5];
      }
    }
  }

  lemma DropSlashMeaning(core: string, lead: char, d: string)
    requires !IsDigit(lead)
    ensures DigitsAfter(DropSlash(core), lead) == Some(d)
            <==> EndsWithGroup(core, lead, d, "") || EndsWithGroup(core, lead, d, "/")
  {
    var b := DropSlash(core);
    DigitsAfterMeaning(b, lead, d);
    if core != [] && core[|core| - 1] == '/' {
      assert core == b + "/";
      SlashTail(b, lead, d);
    }
  }

  /** Below a final `/`, a digit group must end right before it. */
  lemma SlashTail(b: string, lead: char, d: string)
    ensures !EndsWithGroup(b + "/", lead, d, "")
    ensures EndsWithGroup(b + "/", lead, d, "/") <==> EndsWithGroup(b, lead, d, "")
  {
    var core := b + "/";
    var g := [lead] + d;
    assert g + "" == g;
    if AllDigits(d) {
      assert g[|g| - 1] == d[|d| - 1];
      if EndsWith(core, g) {
        assert false;
      }
    }
    if EndsWith(b, g) {
      assert core[|core| - |g + "/"|..] == b[|b| - |g|..] + "/";
    }
    if EndsWith(core, g + "/") {
      assert b[|b| - |g|..] == core[|core| - |g + "/"|..|core| - 1];
    }
  }

  /** Each suffix pattern yields exactly the digit group the regex would capture. */
  lemma SearchMeaning(p: Pattern, s: string, d: string)
    requires !p.LongRun?
    ensures Search(p, s) == Some(d) <==> Matches(p, s, d)
  {
    var core := AnchorView(s);
    match p
    case DashHtml => DropHtmlMeaning(core, '-', d);
    case DashSlash => DropSlashMeaning(core, '-', d);
    case SlashHtml => DropHtmlMeaning(core, '/', d);
    case SlashSlash => DropSlashMeaning(core, '/', d);
    case SlashEnd =>
      DigitsAfterMeaning(core, '/', d);
    case UnderscoreHtml => DropHtmlMeaning(core, '_', d);
  }

  /** The last-resort pattern returns the digits from the leftmost place where
      8 digits begin (the start of a maximal run, whose digits it takes all
      of), and finds nothing only when no 8 digits stand together. */
  lemma {:induction false} FirstLongRunIsLeftmost(s: string)
    ensures FirstLongRun(s).None? <==> forall q :: !LongRunAt(s, q)
    ensures FirstLongRun(s).Some? ==>
      exists p :: LongRunAt(s, p) && FirstLongRun(s).value == LeadingDigits(s[p..])
                  && (p == 0 || !IsDigit(s[p - 1]))
                  && forall q :: 0 <= q < p ==> !LongRunAt(s, q)
    decreases |s|
  {
    if |s| < 8 {
      assert forall q :: !LongRunAt(s, q);
    } else {
      var d := LeadingDigits(s);
      if |d| >= 8 {
        assert LongRunAt(s, 0);
        assert s[0..] == s;
      } else {
        assert !LongRunAt(s, 0) by {
          assert !IsDigit(s[|d|]);
        }
        FirstLongRunIsLeftmost(s[1..]);
        forall q | 0 <= q
          ensures LongRunAt(s, q + 1) <==> LongRunAt(s[1..], q)
        {
          if q + 9 <= |s| {
            assert forall j :: q <= j < q + 8 ==> s[1..][j] == s[j + 1];
          }
        }
        if FirstLongRun(s[1..]).Some? {
          var p :| LongRunAt(s[1..], p) && FirstLongRun(s[1..]).value == LeadingDigits(s[1..][p..])
                   && (p == 0 || !IsDigit(s[1..][p - 1]))
                   && forall q :: 0 <= q < p ==> !LongRunAt(s[1..], q);
          assert s[1..][p..] == s[p + 1..];
          assert LongRunAt(s, p + 1);
          if p == 0 {
            assert !IsDigit(s[0]);
          } else {
            assert s[p] == s[1..][p - 1];
          }
          assert forall q :: 0 <= q < p + 1 ==> !LongRunAt(s, q) by {
            forall q | 0 < q < p + 1 ensures !LongRunAt(s, q) {
              assert LongRunAt(s, (q - 1) + 1) == LongRunAt(s[1..], q - 1);
            }
          }
        } else {
          forall q ensures !LongRunAt(s, q) {
            if q > 0 {
              assert LongRunAt(s, (q - 1) + 1) == LongRunAt(s[1..], q - 1);
            }
          }
        }
      }
    }
  }

  /** The position of the pattern that decided a match. */
  lemma {:induction false} FirstMatchIndex(ps: seq<Pattern>, s: string) returns (i: nat)
    requires FirstMatch(ps, s).Some?
    ensures i < |ps| && Search(ps[i], s) == FirstMatch(ps, s)
    ensures forall j :: 0 <= j < i ==> Search(ps[j], s).None?
    decreases |ps|
  {
    if Search(ps[0], s).Some? {
      i := 0;
    } else {
      var k := FirstMatchIndex(ps[1..], s);
      i := k + 1;
      assert forall j :: 1 <= j < i ==> ps[j] == ps[1..][j - 1];
    }
  }

  /** A pattern that matches after only failing ones decides. */
  lemma {:induction false} FirstMatchAt(ps: seq<Pattern>, s: string, i: nat)
    requires i < |ps| && Search(ps[i], s).Some?
    requires forall j :: 0 <= j < i ==> Search(ps[j], s).None?
    ensures FirstMatch(ps, s) == Search(ps[i], s)
    decreases i
  {
    if i > 0 {
      assert Search(ps[0], s).None?;
      assert ps[1..][i - 1] == ps[i];
      assert forall j :: 0 <= j < i - 1 ==> ps[1..][j] == ps[j + 1];
      FirstMatchAt(ps[1..], s, i - 1);
    }
  }

  /** Nothing is found only when every pattern fails. */
  lemma {:induction false} FirstMatchNone(ps: seq<Pattern>, s: string)
    ensures FirstMatch(ps, s).None? <==> forall i :: 0 <= i < |ps| ==> Search(ps[i], s).None?
    decreases |ps|
  {
    if ps != [] {
      FirstMatchNone(ps[1..], s);
      assert forall i :: 1 <= i < |ps| ==> ps[i] == ps[1..][i - 1];
    }
  }

  /** The first pattern that matches decides, and a pattern is consulted only
      when every earlier one found nothing. */
  lemma FirstMatchPriority(ps: seq<Pattern>, s: string, d: string)
    ensures FirstMatch(ps, s) == Some(d) <==>
      exists i :: 0 <= i < |ps| && Search(ps[i], s) == Some(d) && forall j :: 0 <= j < i ==> Search(ps[j], s).None?
    ensures FirstMatch(ps, s).None? <==> forall i :: 0 <= i < |ps| ==> Search(ps[i], s).None?
  {
    FirstMatchNone(ps, s);
    if FirstMatch(ps, s) == Some(d) {
      var i := FirstMatchIndex(ps, s);
    }
    if exists i :: 0 <= i < |ps| && Search(ps[i], s) == Some(d) && forall j :: 0 <= j < i ==> Search(ps[j], s).None? {
      var i :| 0 <= i < |ps| && Search(ps[i], s) == Some(d) && forall j :: 0 <= j < i ==> Search(ps[j], s).None?;
      FirstMatchAt(ps, s, i);
    }
  }

  /** `/(\d+)$` can never decide an ID: whenever it matches, `/(\d+)/?$`,
      tried before it, matches with the same group. */
  lemma SlashEndSubsumed(s: string)
    ensures Search(SlashEnd, s).Some? ==> Search(SlashSlash, s) == Search(SlashEnd, s)
  {
    if Search(SlashEnd, s).Some? {
      var d := Search(SlashEnd, s).value;
      SearchMeaning(SlashEnd, s, d);
      SearchMeaning(SlashSlash, s, d);
    }
  }

  /** Cleaning keeps a URL without query, fragment or trailing slash as it is,
      and drops any run of slashes after it. */
  lemma CleanUrlPlain(u: string, t: string)
    requires '?' !in u && '#' !in u && u != [] && u[|u| - 1] != '/'
    requires forall i :: 0 <= i < |t| ==> t[i] == '/'
    ensures CleanUrl(u + t) == u
  {
    assert '?' !in t && '#' !in t;
    assert BeforeFirst(u + t, '?') == u + t by {
      assert '?' !in u + t;
    }
    assert BeforeFirst(u + t, '#') == u + t by {
      assert '#' !in u + t;
    }
    var r := RStripChar(u + t, '/');
    assert (u + t)[|u| - 1] == u[|u| - 1];
    assert r == (u + t)[..|u|];
  }

  /** A query or fragment never changes the ID: the URL is cut before them. */
  lemma RiaIdIgnoresQueryAndFragment(u: string, t: string)
    requires '?' !in u && '#' !in u
    requires t != [] && (t[0] == '?' || t[0] == '#')
    ensures ExtractNewsId(u + t) == ExtractNewsId(u)
  {
    UrlParse.BeforeFirstAppend(u, t, '?');
    var b := BeforeFirst(t, '?');
    if t[0] == '?' {
      assert b == [];
    } else {
      assert b == [] || b[0] == '#';
      UrlParse.BeforeFirstAppend(u, b, '#');
      var c := BeforeFirst(b, '#');
      assert c == [];
    }
    assert BeforeFirst(u, '?') == u && BeforeFirst(u, '#') == u;
  }

  /** `.../title-123456.html` gives `"123456"`: the first pattern decides. */
  lemma DashHtmlId(prefix: string, d: string)
    requires '?' !in prefix && '#' !in prefix && AllDigits(d)
    ensures ExtractNewsId(prefix + "-" + d + ".html") == Some(d)
  {
    var u := prefix + "-" + d + ".html";
    CleanUrlPlain(u, "");
    assert u + "" == u;
    DashHtmlSearch(prefix, d);
  }

  /** Against `prefix-digits.html`, the first pattern captures the digits. */
  lemma DashHtmlSearch(prefix: string, d: string)
    requires AllDigits(d)
    ensures Search(DashHtml, prefix + "-" + d + ".html") == Some(d)
  {
    var u := prefix + "-" + d + ".html";
    assert AnchorView(u) == u;
    assert EndsWith(u, ['-'] + d + ".html");
    SearchMeaning(DashHtml, u, d);
  }

  /** `.../title-123456/` (or with no slash, or several) gives `"123456"`:
      the slashes are stripped and the second pattern decides. */
  lemma DashSlashId(prefix: string, d: string, slashes: string)
    requires '?' !in prefix && '#' !in prefix && AllDigits(d)
    requires forall i :: 0 <= i < |slashes| ==> slashes[i] == '/'
    ensures ExtractNewsId(prefix + "-" + d + slashes) == Some(d)
  {
    DashSlashClean(prefix, d, slashes);
    DashSlashSearches(prefix, d);
    assert Patterns[1..][0] == DashSlash;
  }

  /** Cleaning `prefix-digits` followed by slashes strips the slashes. */
  lemma DashSlashClean(prefix: string, d: string, slashes: string)
    requires '?' !in prefix && '#' !in prefix && AllDigits(d)
    requires forall i :: 0 <= i < |slashes| ==> slashes[i] == '/'
    ensures CleanUrl(prefix + "-" + d + slashes) == prefix + "-" + d
  {
    var u := prefix + "-" + d;
    assert u[|u| - 1] == d[|d| - 1];
    CleanUrlPlain(u, slashes);
  }

  /** Against `prefix-digits`, the first pattern fails and the second
      captures the digits. */
  lemma DashSlashSearches(prefix: string, d: string)
    requires AllDigits(d)
    ensures var u := prefix + "-" + d;
      Search(DashHtml, u).None? && Search(DashSlash, u) == Some(d)
  {
    var u := prefix + "-" + d;
    assert u[|u| - 1] == d[|d| - 1];
    assert AnchorView(u) == u && DropSlash(u) == u;
    assert !EndsWith(u, ".html");
    assert EndsWith(u, ['-'] + d + "");
    SearchMeaning(DashSlash, u, d);
  }

  // ---------------------------------------------------------------------
  // Full text

  /** What RIA's side of the network answers: the JSON API (a reply's body is
      None when it is not valid JSON), article pages, and RSS feeds as
      feedparser reads them (None when `feedparser.parse` raises). */
  datatype RiaWeb = RiaWeb(api: string -> Http<Option<Py>>, page: string -> Http<HtmlPage>, feed: Py -> Option<Feed>)

  /** A feed as `feedparser.parse` returns it. */
  datatype Feed = Feed(bozo: bool, entries: seq<Entry>)

  /** One RSS entry: `link`, `title` and `description` when present, and the
      publication time (`time.mktime(entry.published_parsed)`) when it can be
      computed. */
  datatype Entry = Entry(link: Option<string>, title: Option<string>, published: Option<int>, description: Option<string>)

  /** The outcome of resolving an article's text, and the requests made on the way. */
  datatype Resolution = Resolution(text: Result<Py, PyError>, requests: seq<Request>)

  /** `RiaParser._make_api_request`: the decoded JSON body, or None on a
      request failure, a 4xx/5xx status or a body that is not JSON; it never raises. */
  function MakeApiRequest(api: string -> Http<Option<Py>>, url: string): (r: Option<Py>)
    ensures r.Some? ==> api(url).Reply? && !RaisesForStatus(api(url).status) && api(url).body == r
    ensures api(url).NetworkError? || (api(url).Reply? && RaisesForStatus(api(url).status)) ==> r.None?
    ensures api(url).Reply? && !RaisesForStatus(api(url).status) ==> r == api(url).body
  {
    match api(url)
    case NetworkError => None
    case Reply(status, body) => if RaisesForStatus(status) then None else body
  }

  /** `data and data.get('text')` when it is truthy, as `Ok(Some(text))`;
      `Ok(None)` when it is falsy. A truthy body that is not a dict has no
      `get`, which raises. */
  function ApiText(data: Option<Py>): (r: Result<Option<Py>, PyError>)
    ensures r.Err? <==> data.Some? && Truthy(data.value) && !data.value.PyDict?
    ensures r.Ok? && r.value.Some? ==>
      && data.Some? && data.value.PyDict?
      && Lookup(data.value.entries, "text") == r.value && Truthy(r.value.value)
    ensures (data.Some? && data.value.PyDict? && Lookup(data.value.entries, "text").Some?
             && Truthy(Lookup(data.value.entries, "text").value)) ==> r.Ok? && r.value.Some?
  {
    match data
    case None => Ok(None)
    case Some(v) =>
      if !Truthy(v) then Ok(None)
      else match v
        case PyDict(entries) =>
          (match Lookup(entries, "text")
           case Some(t) => if Truthy(t) then Ok(Some(t)) else Ok(None)
           case None => Ok(None))
        case _ => Err(AttributeError("get"))
  }

  /** The URLs that are not articles: video, galleries and infographics. */
  predicate IsNonArticle(url: string) {
    Contains(url, "/video/") || Contains(url, "/gallery/") || Contains(url, "/infographics/")
  }

  /** The API URL for an article ID. */
  function ApiUrl(id: string): string {
    ApiBaseUrl + id + ".json"
  }

  /** The stripped texts of the paragraphs that are not blank, in order. */
  function NonBlank(paragraphs: seq<string>): (r: seq<string>)
    ensures |r| <= |paragraphs|
    ensures forall i :: 0 <= i < |r| ==> r[i] != [] && Trimmed(r[i])
  {
    if paragraphs == [] then []
    else (if Strip(paragraphs[0]) != [] then [Strip(paragraphs[0])] else []) + NonBlank(paragraphs[1..])
  }

  /** The article container: the first `div.article__body`, else the first
      `div.article__text`. */
  function ArticleBody(html: HtmlPage): (r: Option<Div>)
    ensures r.Some? ==> r.value in html.divs
    ensures (exists i :: 0 <= i < |html.divs| && "article__body" in html.divs[i].classes) ==>
              r == FindDiv(html, "article__body")
    ensures (forall i :: 0 <= i < |html.divs| ==> "article__body" !in html.divs[i].classes) ==>
              r == FindDiv(html, "article__text")
    ensures r.None? <==>
      forall i :: 0 <= i < |html.divs| ==> "article__body" !in html.divs[i].classes && "article__text" !in html.divs[i].classes
  {
    match FindDiv(html, "article__body")
    case Some(d) => Some(d)
    case None => FindDiv(html, "article__text")
  }

  /** `RiaParser._extract_full_text_fallback`: the article page (fetched with
      no status check) reduced to its non-blank paragraphs joined by spaces;
      "" when the request fails or the page has no article container. */
  function FallbackText(page: string -> Http<HtmlPage>, url: string): (r: string)
    ensures Trimmed(r)
    ensures page(url).NetworkError? ==> r == ""
    ensures page(url).Reply? && ArticleBody(page(url).body).None? ==> r == ""
  {
    match page(url)
    case NetworkError => ""
    case Reply(_, html) =>
      match ArticleBody(html)
      case None => ""
      case Some(body) =>
        JoinTrimmed(NonBlank(body.paragraphs), " ");
        Join(NonBlank(body.paragraphs), " ")
  }

  /** `RiaParser._extract_full_text`: non-articles are skipped, an article
      with an ID asks the API first, and the HTML fallback answers otherwise. */
  function ExtractFullText(url: string, web: RiaWeb): (r: Resolution)
    ensures IsNonArticle(url) <==> r.requests == []
    ensures r.text.Ok? && r.requests != [] ==>
      r.requests[|r.requests| - 1] == PageGet(url) || (r.requests == [r.requests[0]] && r.requests[0].ApiGet?)
  {
    if IsNonArticle(url) then Resolution(Ok(PyStr("")), [])
    else match ExtractNewsId(url)
      case None => Resolution(Ok(PyStr(FallbackText(web.page, url))), [PageGet(url)])
      case Some(id) =>
        var apiUrl := ApiUrl(id);
        match ApiText(MakeApiRequest(web.api, apiUrl))
        case Err(e) => Resolution(Err(e), [ApiGet(apiUrl)])
        case Ok(Some(t)) => Resolution(Ok(t), [ApiGet(apiUrl)])
        case Ok(None) => Resolution(Ok(PyStr(FallbackText(web.page, url))), [ApiGet(apiUrl), PageGet(url)])
  }

  /** A video, gallery or infographics URL gives "" without any request. */
  lemma NonArticleNotFetched(url: string, web: RiaWeb)
    requires IsNonArticle(url)
    ensures ExtractFullText(url, web) == Resolution(Ok(PyStr("")), [])
  {
  }

  /** With an ID and an API answer whose `text` is truthy, that text is the
      result and the fallback is not tried. */
  lemma ApiTextWins(url: string, web: RiaWeb, id: string, t: Py)
    requires !IsNonArticle(url) && ExtractNewsId(url) == Some(id)
    requires var data := MakeApiRequest(web.api, ApiUrl(id));
      data.Some? && data.value.PyDict? && Lookup(data.value.entries, "text") == Some(t)
    requires Truthy(t)
    ensures ExtractFullText(url, web) == Resolution(Ok(t), [ApiGet(ApiUrl(id))])
  {
  }

  /** Without an ID, on any API failure, or when the answer's `text` is
      missing or empty, the fallback's text is the result, fetched last. */
  lemma FallbackOtherwise(url: string, web: RiaWeb)
    requires !IsNonArticle(url)
    requires ExtractNewsId(url).Some? ==>
      var data := MakeApiRequest(web.api, ApiUrl(ExtractNewsId(url).value));
      data.None? || !Truthy(data.value)
      || (data.value.PyDict? && (Lookup(data.value.entries, "text").None? || !Truthy(Lookup(data.value.entries, "text").value)))
    ensures ExtractFullText(url, web).text == Ok(PyStr(FallbackText(web.page, url)))
    ensures ExtractFullText(url, web).requests ==
      (if ExtractNewsId(url).Some? then [ApiGet(ApiUrl(ExtractNewsId(url).value))] else []) + [PageGet(url)]
  {
  }

  /** Resolution raises only when the API's JSON body is truthy but not an
      object; the item that asked is then dropped. */
  lemma ResolutionRaisesOnlyOnOddBody(url: string, web: RiaWeb)
    ensures ExtractFullText(url, web).text.Err? <==>
      && !IsNonArticle(url) && ExtractNewsId(url).Some?
      && var data := MakeApiRequest(web.api, ApiUrl(ExtractNewsId(url).value));
         data.Some? && Truthy(data.value) && !data.value.PyDict?
  {
  }

  /** The fallback text never starts or ends with whitespace, and it is empty
      only when the page failed, has no container, or only blank paragraphs. */
  lemma FallbackTextTrimmed(page: string -> Http<HtmlPage>, url: string)
    ensures Trimmed(FallbackText(page, url))
    ensures FallbackText(page, url) == [] <==>
      page(url).NetworkError? || ArticleBody(page(url).body).None?
      || forall i :: 0 <= i < |ArticleBody(page(url).body).value.paragraphs| ==>
           Strip(ArticleBody(page(url).body).value.paragraphs[i]) == []
  {
    if page(url).Reply? && ArticleBody(page(url).body).Some? {
      var ps := ArticleBody(page(url).body).value.paragraphs;
      assert FallbackText(page, url) == Join(NonBlank(ps), " ");
      JoinTrimmed(NonBlank(ps), " ");
      JoinNonBlankEmpty(ps);
    }
  }

  /** The joined non-blank paragraphs are empty exactly when every paragraph
      is blank. */
  lemma JoinNonBlankEmpty(paragraphs: seq<string>)
    ensures Join(NonBlank(paragraphs), " ") == [] <==> forall i :: 0 <= i < |paragraphs| ==> Strip(paragraphs[i]) == []
  {
    JoinEnds(NonBlank(paragraphs), " ");
    NonBlankEmpty(paragraphs);
  }

  /** No paragraph survives exactly when all of them are blank. */
  lemma {:induction false} NonBlankEmpty(paragraphs: seq<string>)
    ensures NonBlank(paragraphs) == [] <==> forall i :: 0 <= i < |paragraphs| ==> Strip(paragraphs[i]) == []
  {
    if paragraphs != [] {
      var h := Strip(paragraphs[0]);
      var rest := paragraphs[1..];
      NonBlankEmpty(rest);
      assert NonBlank(paragraphs) == (if h != [] then [h] else []) + NonBlank(rest);
      if forall i :: 0 <= i < |paragraphs| ==> Strip(paragraphs[i]) == [] {
        forall i | 0 <= i < |rest| ensures Strip(rest[i]) == [] {
          assert rest[i] == paragraphs[i + 1];
        }
      }
      if NonBlank(paragraphs) == [] {
        forall i | 0 <= i < |paragraphs| ensures Strip(paragraphs[i]) == [] {
          if i > 0 {
            assert paragraphs[i] == rest[i - 1];
          }
        }
      }
    }
  }

  // ---------------------------------------------------------------------
  // Feed items

  /** The keys of a RIA record's dict: the template's, then `description`. */
  const RecordKeys: seq<string> := BaseParser.TemplateKeys + ["description"]

  /** The record `_parse_rss_item` builds before any text is resolved: the
      ID falls back to the link, the category comes from the channel, and
      `raw_content` is still "". */
  function EntryItem(link: string, title: string, published: int, category: Py, description: string): BaseParser.NewsItem {
    BaseParser.NewsItem(SourceName, ExtractNewsId(link).GetOr(link), title, link, published, [category], PyStr(""), Some(description))
  }

  /** `RiaParser._parse_rss_item` for an entry of a channel whose category is
      `category`; `threshold` is `now - lookback_hours` as a timestamp, None
      when it cannot be computed. An entry without link or title, without a
      usable publication time, or whose resolution raises gives None. A fresh
      entry (published at or after the threshold) gets its resolved text as
      `raw_content`; a stale one keeps "". */
  function ParseRssItem(entry: Entry, category: Py, web: RiaWeb, threshold: Option<int>): (r: Option<BaseParser.NewsItem>)
    ensures threshold.None? ==> r.None?
    ensures r.Some? ==> entry.link.Some? && r.value.url == entry.link.value && r.value.source == SourceName
  {
    if entry.link.None? || entry.title.None? || entry.published.None? then None
    else
      var link := entry.link.value;
      var item := EntryItem(link, entry.title.value, entry.published.value, category, entry.description.GetOr(""));
      match threshold
      case None => None
      case Some(t) =>
        if entry.published.value >= t then
          match ExtractFullText(link, web).text
          case Err(_) => None
          case Ok(text) => Some(item.(rawContent := text))
        else Some(item)
  }

  /** When `_parse_rss_item` gives a record, and what the record holds: the
      entry's link, title and time, the channel's category, the entry's
      description (or ""), an ID that falls back to the link, and a
      `raw_content` that is resolved only for a fresh entry. Its dict has
      the template's keys followed by `description`. */
  lemma ParseRssItemSpec(entry: Entry, category: Py, web: RiaWeb, threshold: Option<int>)
    ensures var r := ParseRssItem(entry, category, web, threshold);
      r.Some? <==>
        && entry.link.Some? && entry.title.Some? && entry.published.Some? && threshold.Some?
        && (entry.published.value < threshold.value || ExtractFullText(entry.link.value, web).text.Ok?)
    ensures var r := ParseRssItem(entry, category, web, threshold);
      r.Some? ==>
        && r.value.source == SourceName
        && r.value.id == ExtractNewsId(entry.link.value).GetOr(entry.link.value)
        && r.value.url == entry.link.value
        && r.value.title == entry.title.value
        && r.value.pubDate == entry.published.value
        && r.value.categories == [category]
        && r.value.description == Some(entry.description.GetOr(""))
        && r.value.rawContent ==
             (if entry.published.value < threshold.value then PyStr("") else ExtractFullText(entry.link.value, web).text.value)
        && Keys(BaseParser.AsDict(r.value)) == RecordKeys
  {
    var r := ParseRssItem(entry, category, web, threshold);
    if r.Some? {
      BaseParser.AsDictKeys(r.value);
    }
  }

  /** A record's ID is the link's digits when a pattern matches, and the
      link itself otherwise; it is never missing. */
  lemma RecordIdFallsBackToLink(entry: Entry, category: Py, web: RiaWeb, threshold: Option<int>)
    requires ParseRssItem(entry, category, web, threshold).Some?
    ensures var id := ParseRssItem(entry, category, web, threshold).value.id;
      AllDigits(id) || id == entry.link.value
  {
    ParseRssItemSpec(entry, category, web, threshold);
  }

  /** A stale entry is kept without resolving its text: its record is the
      same whatever the network would answer. */
  lemma StaleItemNotFetched(entry: Entry, category: Py, web1: RiaWeb, web2: RiaWeb, threshold: int)
    requires entry.published.Some? && entry.published.value < threshold
    ensures ParseRssItem(entry, category, web1, Some(threshold)) == ParseRssItem(entry, category, web2, Some(threshold))
  {
  }

  // ---------------------------------------------------------------------
  // The channel loop

  /** The records of `entries`, in feed order, skipping those that give None. */
  function ChannelItems(entries: seq<Entry>, category: Py, web: RiaWeb, threshold: Option<int>): (r: seq<BaseParser.NewsItem>)
    ensures |r| <= |entries|
    decreases |entries|
  {
    if entries == [] then []
    else
      ChannelItems(entries[..|entries| - 1], category, web, threshold)
      + EntryRecords(entries[|entries| - 1], category, web, threshold)
  }

  /** The record of one entry as a list: empty when `_parse_rss_item` gives None. */
  function EntryRecords(entry: Entry, category: Py, web: RiaWeb, threshold: Option<int>): seq<BaseParser.NewsItem> {
    match ParseRssItem(entry, category, web, threshold)
    case Some(x) => [x]
    case None => []
  }

  /** One channel's records, or None when the channel is skipped: feedparser
      raised or flagged the feed as malformed (`bozo`), `defaults['max_news']`
      (evaluated eagerly as the `get` default) is missing, or the channel's
      `max_news` cannot bound a slice. */
  function ChannelNews(ch: Channel, defaults: Py, web: RiaWeb, threshold: Option<int>): Option<seq<BaseParser.NewsItem>> {
    match web.feed(ch.url)
    case None => None
    case Some(feed) =>
      if feed.bozo then None
      else match Index(defaults, "max_news")
        case Err(_) => None
        case Ok(_) =>
          match SliceTo(feed.entries, ch.maxNews)
          case Err(_) => None
          case Ok(entries) => Some(ChannelItems(entries, ch.category, web, threshold))
  }

  /** Every channel's records, channel after channel in configuration order. */
  function News(channels: seq<(string, Channel)>, defaults: Py, web: RiaWeb, threshold: Option<int>): seq<BaseParser.NewsItem> {
    BaseParser.Collect(channels, (c: (string, Channel)) => ChannelNews(c.1, defaults, web, threshold).GetOr([]))
  }

  /** The inner loop of `fetch_news`: each entry's record, when there is
      one, collected in feed order. */
  method ChannelRecords(entries: seq<Entry>, category: Py, web: RiaWeb, threshold: Option<int>)
    returns (records: seq<BaseParser.NewsItem>)
    ensures records == ChannelItems(entries, category, web, threshold)
  {
    records := [];
    for j := 0 to |entries|
      invariant records == ChannelItems(entries[..j], category, web, threshold)
    {
      var item := ParseRssItem(entries[j], category, web, threshold);
      ChannelItemsStep(entries, j, category, web, threshold);
      if item.Some? {
        records := records + [item.value];
      }
    }
    assert entries[..|entries|] == entries;
  }

  /** The records of one more entry extend those of the entries before it. */
  lemma ChannelItemsStep(entries: seq<Entry>, j: nat, category: Py, web: RiaWeb, threshold: Option<int>)
    requires j < |entries|
    ensures ChannelItems(entries[..j + 1], category, web, threshold)
            == ChannelItems(entries[..j], category, web, threshold)
               + EntryRecords(entries[j], category, web, threshold)
  {
    var prefix := entries[..j + 1];
    assert prefix[..|prefix| - 1] == entries[..j] && prefix[|prefix| - 1] == entries[j];
  }

  /** `RiaParser.fetch_news`: the channels in configuration order, each
      either skipped or contributing its records. */
  method FetchNews(p: BaseParser.Parser, web: RiaWeb, threshold: Option<int>) returns (news: seq<BaseParser.NewsItem>)
    ensures news == News(p.config.channels, p.config.defaults, web, threshold)
  {
    var channels := p.config.channels;
    var defaults := p.config.defaults;
    news := [];
    for c := 0 to |channels|
      invariant news == News(channels[..c], defaults, web, threshold)
    {
      assert channels[..c + 1][..c] == channels[..c];
      var ch := channels[c].1;
      var feed := web.feed(ch.url);
      if feed.Some? && !feed.value.bozo && Index(defaults, "max_news").Ok? {
        var sliced := SliceTo(feed.value.entries, ch.maxNews);
        if sliced.Ok? {
          var records := ChannelRecords(sliced.value, ch.category, web, threshold);
          news := news + records;
        }
      }
    }
    assert channels[..|channels|] == channels;
  }

  /** A skipped channel does not stop the others: the records of two runs of
      channels are those of each, concatenated. */
  lemma NewsConcat(a: seq<(string, Channel)>, b: seq<(string, Channel)>, defaults: Py, web: RiaWeb, threshold: Option<int>)
    ensures News(a + b, defaults, web, threshold) == News(a, defaults, web, threshold) + News(b, defaults, web, threshold)
  {
    BaseParser.CollectConcat(a, b, (c: (string, Channel)) => ChannelNews(c.1, defaults, web, threshold).GetOr([]));
  }

  /** At most `max_news` entries of a channel are read, so a non-negative
      `max_news` bounds the channel's records. */
  lemma ChannelNewsCapped(ch: Channel, defaults: Py, web: RiaWeb, threshold: Option<int>)
    requires ChannelNews(ch, defaults, web, threshold).Some?
    ensures ch.maxNews.PyInt? && ch.maxNews.i >= 0 ==> |ChannelNews(ch, defaults, web, threshold).value| <= ch.maxNews.i
    ensures |ChannelNews(ch, defaults, web, threshold).value| <= |web.feed(ch.url).value.entries|
  {
  }

  /** Every record collected is a RIA record: source "ria.ru", a
      description, and a dict with the template's keys plus `description`. */
  lemma {:induction false} NewsAreRecords(channels: seq<(string, Channel)>, defaults: Py, web: RiaWeb, threshold: Option<int>)
    ensures forall x <- News(channels, defaults, web, threshold) ::
      x.source == SourceName && x.description.Some? && Keys(BaseParser.AsDict(x)) == RecordKeys
    decreases |channels|
  {
    if channels != [] {
      NewsAreRecords(channels[..|channels| - 1], defaults, web, threshold);
      var ch := channels[|channels| - 1].1;
      match ChannelNews(ch, defaults, web, threshold)
      case None =>
      case Some(items) =>
        var entries := SliceTo(web.feed(ch.url).value.entries, ch.maxNews).value;
        ChannelItemsAreRecords(entries, ch.category, web, threshold);
    }
  }

  /** Each channel's records are RIA records. */
  lemma {:induction false} ChannelItemsAreRecords(entries: seq<Entry>, category: Py, web: RiaWeb, threshold: Option<int>)
    ensures forall x <- ChannelItems(entries, category, web, threshold) ::
      x.source == SourceName && x.description.Some? && Keys(BaseParser.AsDict(x)) == RecordKeys
    decreases |entries|
  {
    if entries != [] {
      ChannelItemsAreRecords(entries[..|entries| - 1], category, web, threshold);
      ParseRssItemSpec(entries[|entries| - 1], category, web, threshold);
    }
  }
}
