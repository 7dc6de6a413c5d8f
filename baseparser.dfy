/** What every source parser shares (`BaseParser`): construction from the
    loaded configuration, the default ID rule and the news-record template. */
module BaseParser {
  import opened Wrappers
  import opened Text
  import opened PyValues
  import opened UrlParse
  import opened Config

  /** The keys of a news record, in the template's order. */
  const TemplateKeys: seq<string> := ["source", "id", "title", "url", "pub_date", "categories", "raw_content"]

  /** `_get_news_template()`: every field empty, `categories` an empty list.
      A fresh value on every call (values here are never shared). */
  function NewsTemplate(): (t: Py)
    ensures t.PyDict? && Keys(t.entries) == TemplateKeys
  {
    PyDict([("source", PyStr("")), ("id", PyStr("")), ("title", PyStr("")), ("url", PyStr("")),
            ("pub_date", PyStr("")), ("categories", PyList([])), ("raw_content", PyStr(""))])
  }

  /** Every template field is the empty string except `categories`, an empty list. */
  lemma NewsTemplateValues()
    ensures var t := NewsTemplate().entries;
      forall i :: 0 <= i < |t| ==> t[i].1 == if t[i].0 == "categories" then PyList([]) else PyStr("")
  {
  }

  /** A news record. The parsers fill the template dict with `update` and
      then set `raw_content`; the record keeps those values by field, and
      `AsDict` gives the dict they make. `description` is present only in
      the records of parsers that add that key. */
  datatype NewsItem = NewsItem(source: string, id: string, title: string, url: string, pubDate: int,
                               categories: seq<Py>, rawContent: Py, description: Option<string>)

  /** The fields written into the template, in the order of the `update`
      call, with `raw_content` last. */
  function ItemPairs(item: NewsItem): seq<(string, Py)> {
    [ ("source", PyStr(item.source)),
      ("id", PyStr(item.id)),
      ("title", PyStr(item.title)),
      ("url", PyStr(item.url)),
      ("pub_date", PyInt(item.pubDate)),
      ("categories", PyList(item.categories)) ]
    + (match item.description case Some(d) => [("description", PyStr(d))] case None => [])
    + [("raw_content", item.rawContent)]
  }

  /** The record as a dict: the template updated with its fields. */
  function AsDict(item: NewsItem): seq<(string, Py)> {
    Update(NewsTemplate().entries, ItemPairs(item))
  }

  /** The keys of a record's dict: the template's, in order, then
      `description` when the record has one. */
  function ItemKeys(item: NewsItem): seq<string> {
    TemplateKeys + (if item.description.Some? then ["description"] else [])
  }

  /** A record's dict has the template's keys in the template's order, and
      a new `description` key goes last. */
  lemma AsDictKeys(item: NewsItem)
    ensures Keys(AsDict(item)) == ItemKeys(item)
  {
    var t := NewsTemplate().entries;
    var pairs := ItemPairs(item);
    var known := pairs[..6];
    assert forall i :: 0 <= i < 6 ==> known[i].0 == TemplateKeys[i];
    if item.description.Some? {
      assert pairs == known + [pairs[6]] + pairs[7..];
      assert pairs[7..] == [("raw_content", item.rawContent)];
      UpdateOneNewKey(t, known, pairs[6], pairs[7..]);
    } else {
      assert forall i :: 0 <= i < |pairs| ==> pairs[i].0 in Keys(t);
      UpdateKnownKeys(t, pairs);
    }
  }

  /** Each key of a record's dict reads as the record's field. */
  lemma AsDictFields(item: NewsItem)
    ensures var d := AsDict(item);
      && Lookup(d, "source") == Some(PyStr(item.source))
      && Lookup(d, "id") == Some(PyStr(item.id))
      && Lookup(d, "title") == Some(PyStr(item.title))
      && Lookup(d, "url") == Some(PyStr(item.url))
      && Lookup(d, "pub_date") == Some(PyInt(item.pubDate))
      && Lookup(d, "categories") == Some(PyList(item.categories))
      && Lookup(d, "raw_content") == Some(item.rawContent)
      && (item.description.Some? ==> Lookup(d, "description") == Some(PyStr(item.description.value)))
  {
    var t := NewsTemplate().entries;
    var pairs := ItemPairs(item);
    assert DistinctKeys(pairs);
    UpdateLookupAt(t, pairs, 0);
    UpdateLookupAt(t, pairs, 1);
    UpdateLookupAt(t, pairs, 2);
    UpdateLookupAt(t, pairs, 3);
    UpdateLookupAt(t, pairs, 4);
    UpdateLookupAt(t, pairs, 5);
    UpdateLookupAt(t, pairs, |pairs| - 1);
    if item.description.Some? {
      UpdateLookupAt(t, pairs, 6);
    }
  }

  /** The shape of the parsers' channel loops: what `step` gives for each
      of `xs`, appended in order. */
  function Collect<X, T>(xs: seq<X>, step: X -> seq<T>): seq<T>
    decreases |xs|
  {
    if xs == [] then [] else Collect(xs[..|xs| - 1], step) + step(xs[|xs| - 1])
  }

  /** Collecting over two runs gives the two collections, concatenated:
      nothing one element gives affects what the others give. */
  lemma {:induction false} CollectConcat<X, T>(a: seq<X>, b: seq<X>, step: X -> seq<T>)
    ensures Collect(a + b, step) == Collect(a, step) + Collect(b, step)
    decreases |b|
  {
    if b == [] {
      assert a + b == a;
    } else {
      var b' := b[..|b| - 1];
      assert (a + b)[..|a + b| - 1] == a + b';
      assert (a + b)[|a + b| - 1] == b[|b| - 1];
      CollectConcat(a, b', step);
    }
  }

  /** Whatever is collected came from the step of one of the elements. */
  lemma {:induction false} CollectMember<X, T>(xs: seq<X>, step: X -> seq<T>, y: T)
    requires y in Collect(xs, step)
    ensures exists x :: x in xs && y in step(x)
    decreases |xs|
  {
    var last := xs[|xs| - 1];
    if y in step(last) {
      assert last in xs;
    } else {
      CollectMember(xs[..|xs| - 1], step, y);
      var x :| x in xs[..|xs| - 1] && y in step(x);
      assert x in xs;
    }
  }

  /** A constructed parser: the fields `__init__` sets. */
  datatype Parser = Parser(sourceName: string, config: SourceConfig, timezone: Py, requestTimeout: Py, userAgent: Py)

  /** `BaseParser.__init__` for a subclass whose `source_name` is `sourceName`
      (None when the subclass defines none), over a validated loader.
      `zoneKnown` says which zone names `pytz.timezone` accepts. */
  function NewParser(sourceName: Option<string>, loader: Py, zoneKnown: Py -> bool): (r: Result<Parser, PyError>)
    requires Validate(loader) == Pass
    ensures sourceName.None? ==> r == Err(NotImplementedError)
    ensures sourceName.Some? && GetSourceConfig(loader, sourceName.value).Err? ==>
              r == Err(GetSourceConfig(loader, sourceName.value).error)
    ensures r.Ok? ==>
      && sourceName == Some(r.value.sourceName)
      && GetSourceConfig(loader, r.value.sourceName) == Ok(r.value.config)
      && Index(r.value.config.system, "parser_timezone") == Ok(r.value.timezone)
      && zoneKnown(r.value.timezone)
      && Index(r.value.config.system, "request_timeout") == Ok(r.value.requestTimeout)
      && Index(r.value.config.defaults, "user_agent") == Ok(r.value.userAgent)
    ensures sourceName.Some? && GetSourceConfig(loader, sourceName.value).Ok? ==>
      var config := GetSourceConfig(loader, sourceName.value).value;
      && (r.Ok? <==>
            && Index(config.system, "parser_timezone").Ok?
            && zoneKnown(Index(config.system, "parser_timezone").value)
            && Index(config.system, "request_timeout").Ok?
            && Index(config.defaults, "user_agent").Ok?)
      && (Index(config.system, "parser_timezone").Err? ==>
            r == Err(Index(config.system, "parser_timezone").error))
      && (Index(config.system, "parser_timezone").Ok? && !zoneKnown(Index(config.system, "parser_timezone").value) ==>
            r == Err(UnknownTimeZoneError))
      && (Index(config.system, "parser_timezone").Ok? && zoneKnown(Index(config.system, "parser_timezone").value)
          && Index(config.system, "request_timeout").Err? ==>
            r == Err(Index(config.system, "request_timeout").error))
      && (Index(config.system, "parser_timezone").Ok? && zoneKnown(Index(config.system, "parser_timezone").value)
          && Index(config.system, "request_timeout").Ok? && Index(config.defaults, "user_agent").Err? ==>
            r == Err(Index(config.defaults, "user_agent").error))
  {
    match sourceName
    case None => Err(NotImplementedError)
    case Some(name) =>
      match GetSourceConfig(loader, name)
      case Err(e) => Err(e)
      case Ok(config) =>
        match Index(config.system, "parser_timezone")
        case Err(e) => Err(e)
        case Ok(zone) =>
          if !zoneKnown(zone) then Err(UnknownTimeZoneError)
          else
            match Index(config.system, "request_timeout")
            case Err(e) => Err(e)
            case Ok(timeout) =>
              match Index(config.defaults, "user_agent")
              case Err(e) => Err(e)
              case Ok(agent) => Ok(Parser(name, config, zone, timeout, agent))
  }

  /** The path segments made only of digits, in order. */
  function NumericParts(segments: seq<string>): (r: seq<string>)
    ensures forall i :: 0 <= i < |r| ==> AllDigits(r[i])
    decreases |segments|
  {
    if segments == [] then []
    else
      var last := segments[|segments| - 1];
      NumericParts(segments[..|segments| - 1]) + (if AllDigits(last) then [last] else [])
  }

  /** `BaseParser._extract_news_id`: the last all-digit segment of the URL's
      path, else the URL itself; the URL itself too when urlparse raises. */
  function ExtractNewsId(url: string): (r: string)
    ensures r == url || AllDigits(r)
  {
    match UrlPath(url)
    case None => url
    case Some(path) => LastNumericPart(path).GetOr(url)
  }

  /** The last segment of `path` made only of digits, if any. */
  function LastNumericPart(path: string): Option<string> {
    var parts := NumericParts(Split(path, '/'));
    if parts == [] then None else Some(parts[|parts| - 1])
  }

  /** The last all-digit element of `segments`, found from the end. */
  lemma {:induction false} NumericPartsLast(segments: seq<string>)
    ensures NumericParts(segments) != [] ==>
      exists k :: 0 <= k < |segments| && segments[k] == NumericParts(segments)[|NumericParts(segments)| - 1]
                  && AllDigits(segments[k]) && forall j :: k < j < |segments| ==> !AllDigits(segments[j])
    decreases |segments|
  {
    if segments != [] {
      var n := |segments| - 1;
      var front := segments[..n];
      var parts := NumericParts(segments);
      if AllDigits(segments[n]) {
        assert parts[|parts| - 1] == segments[n];
      } else if parts != [] {
        NumericPartsLast(front);
        assert parts == NumericParts(front);
        var k :| 0 <= k < n && front[k] == parts[|parts| - 1]
                 && AllDigits(front[k]) && forall j :: k < j < n ==> !AllDigits(front[j]);
        assert segments[k] == front[k];
        assert forall j :: k < j < n ==> front[j] == segments[j];
      }
    }
  }

  /** No segment is kept exactly when none is all digits. */
  lemma {:induction false} NumericPartsNone(segments: seq<string>)
    ensures NumericParts(segments) == [] <==> forall i :: 0 <= i < |segments| ==> !AllDigits(segments[i])
    decreases |segments|
  {
    if segments != [] {
      var n := |segments| - 1;
      var front := segments[..n];
      NumericPartsNone(front);
      assert forall i :: 0 <= i < n ==> front[i] == segments[i];
    }
  }

  /** The last all-digit segment is found from the end of the path: empty
      segments (from doubled, leading or trailing slashes) never count. */
  lemma LastNumericPartSpec(path: string)
    ensures LastNumericPart(path).None? <==>
      forall i :: 0 <= i < |Split(path, '/')| ==> !AllDigits(Split(path, '/')[i])
    ensures var segments := Split(path, '/');
      LastNumericPart(path).Some? ==>
        exists k :: 0 <= k < |segments| && LastNumericPart(path).value == segments[k] && AllDigits(segments[k])
                    && forall j :: k < j < |segments| ==> !AllDigits(segments[j])
  {
    NumericPartsNone(Split(path, '/'));
    NumericPartsLast(Split(path, '/'));
  }

  /** The ID is the last `/`-segment of the path made only of digits (so never
      an empty one); when no segment is all digits, the ID is the URL
      unchanged. */
  lemma BaseIdIsLastDigitSegment(url: string, path: string)
    requires UrlPath(url) == Some(path)
    ensures var segments := Split(path, '/');
      (forall i :: 0 <= i < |segments| ==> !AllDigits(segments[i])) ==> ExtractNewsId(url) == url
    ensures var segments := Split(path, '/');
      forall k :: 0 <= k < |segments| && AllDigits(segments[k])
                  && (forall j :: k < j < |segments| ==> !AllDigits(segments[j])) ==>
        ExtractNewsId(url) == segments[k] && segments[k] != []
  {
    var segments := Split(path, '/');
    assert ExtractNewsId(url) == LastNumericPart(path).GetOr(url);
    LastNumericPartSpec(path);
    forall k | 0 <= k < |segments| && AllDigits(segments[k])
               && (forall j :: k < j < |segments| ==> !AllDigits(segments[j]))
      ensures LastNumericPart(path) == Some(segments[k])
    {
      LastDigitSegment(segments, path, k);
    }
  }

  /** The last all-digit segment is the one `LastNumericPart` finds. */
  lemma LastDigitSegment(segments: seq<string>, path: string, k: nat)
    requires segments == Split(path, '/')
    requires k < |segments| && AllDigits(segments[k])
    requires forall j :: k < j < |segments| ==> !AllDigits(segments[j])
    ensures LastNumericPart(path) == Some(segments[k])
  {
    LastNumericPartSpec(path);
    var m :| 0 <= m < |segments| && LastNumericPart(path).value == segments[m] && AllDigits(segments[m])
             && forall j :: m < j < |segments| ==> !AllDigits(segments[j]);
    assert m == k;
  }

  /** When urlparse raises, the ID is the URL unchanged. */
  lemma BaseIdOnParseError(url: string)
    requires UrlPath(url).None?
    ensures ExtractNewsId(url) == url
  {
  }

  /** Where a numeric segment decides the ID, a query or fragment appended to
      a URL without either does not change it. */
  lemma BaseIdIgnoresQueryAndFragment(u: string, t: string)
    requires '?' !in u && '#' !in u
    requires t != [] && (t[0] == '?' || t[0] == '#')
    requires ExtractNewsId(u) != u
    ensures ExtractNewsId(u + t) == ExtractNewsId(u)
  {
    PathIgnoresQueryAndFragment(u, t);
  }
}
