/** What the parsers receive from the network and from HTML parsing, taken as
    abstract inputs: the outcome of each HTTP request, and a parsed page. */
module Web {
  import opened Wrappers

  /** The outcome of one HTTP request: a failure before any reply
      (connection, timeout, invalid URL), or a reply with its status code and body. */
  datatype Http<T> = NetworkError | Reply(status: int, body: T)

  /** `response.raise_for_status()` raises for 4xx and 5xx status codes only. */
  predicate RaisesForStatus(status: int) {
    400 <= status < 600
  }

  /** One `<div>` of a parsed page: its classes, and the text of every `<p>`
      inside it in document order, as the HTML parser gives it. */
  datatype Div = Div(classes: seq<string>, paragraphs: seq<string>)

  /** A parsed page: its `<div>` elements in document order. */
  datatype HtmlPage = HtmlPage(divs: seq<Div>)

  /** An outbound HTTP request made while resolving an article's text. */
  datatype Request = ApiGet(url: string) | PageGet(url: string)

  /** The first div in `divs` carrying class `cls`. */
  function FirstWithClass(divs: seq<Div>, cls: string): (r: Option<nat>)
    ensures r.None? <==> forall i :: 0 <= i < |divs| ==> cls !in divs[i].classes
    ensures r.Some? ==> r.value < |divs| && cls in divs[r.value].classes
    ensures r.Some? ==> forall j :: 0 <= j < r.value ==> cls !in divs[j].classes
  {
    if divs == [] then None
    else if cls in divs[0].classes then Some(0)
    else match FirstWithClass(divs[1..], cls)
      case None => None
      case Some(i) => Some(i + 1)
  }

  /** BeautifulSoup's `soup.find('div', class_=cls)`: the first div in
      document order that carries the class. */
  function FindDiv(page: HtmlPage, cls: string): (r: Option<Div>)
    ensures r.None? <==> forall i :: 0 <= i < |page.divs| ==> cls !in page.divs[i].classes
    ensures r.Some? ==> exists i :: 0 <= i < |page.divs| && page.divs[i] == r.value && cls in r.value.classes
                                    && forall j :: 0 <= j < i ==> cls !in page.divs[j].classes
  {
    match FirstWithClass(page.divs, cls)
    case None => None
    case Some(i) => Some(page.divs[i])
  }
}
