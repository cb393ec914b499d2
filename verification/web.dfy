/** The scraper's view of the network, as an oracle. A fetch (`requests.get`) either raises or
    yields a status, a `Content-Type` header and a body; the body is given as what the three
    parsers the scraper uses would make of it: ElementTree's sitemap reading, BeautifulSoup's
    list of `<a href>` values, and the article fields (title, date, Markdown text). */
module Web {
  import opened Text

  datatype Option<+T> = None | Some(value: T)

  type Url = string

  /** A parsed sitemap (sitemaps.org protocol 0.9). Each entry is the `<loc>` child of a
      `<sitemap>` or `<url>` element: `None` when there is none, otherwise its text, with `""`
      standing for an empty or missing text. `Malformed` is a body ElementTree rejects with
      `ParseError`. */
  datatype SitemapDoc =
    | SitemapIndex(sitemaps: seq<Option<string>>)
    | UrlSet(locs: seq<Option<string>>)
    | Malformed

  /** What the article extractors find on a page: the `<title>` string if there is a title
      element, the publication date, and the Markdown text of the main content. */
  datatype ArticleView = ArticleView(title: Option<string>, date: string, markdown: string)

  /** A response body, as each parser sees it. `anchors` lists, in document order, the `href`
      of every anchor that has one. */
  datatype Document = Document(xml: SitemapDoc, anchors: seq<string>, article: ArticleView)

  datatype Response = Response(status: int, contentType: string, doc: Document)

  /** The environment of one run. A URL outside `web` is one whose fetch raises. `join` is
      `urljoin`; `isArticleHref(base, href)` is the fallback test
      `re.search(base + "[^/]+/[^/]+/", href)`. */
  datatype Env = Env(
    web: map<Url, Response>,
    join: (Url, string) -> Url,
    isArticleHref: (Url, string) -> bool)

  /** `raise_for_status` raises for client and server errors. */
  predicate RaisesForStatus(status: int)
  {
    400 <= status < 600
  }

  /** `get_soup(url)`: the parsed page, or `None` when the fetch raises or the status is an error. */
  function GetSoup(env: Env, url: Url): Option<Document>
  {
    if url in env.web && !RaisesForStatus(env.web[url].status) then Some(env.web[url].doc) else None
  }

  /** A fetch that does not raise and answers 200. */
  predicate IsOk(env: Env, url: Url)
  {
    url in env.web && env.web[url].status == 200
  }

  /** The XML-or-HTML decision: `'xml' in content_type.lower() or url.endswith('.xml')`. */
  predicate IsXmlResponse(contentType: string, url: Url)
  {
    Contains(Lower(contentType), "xml") || EndsWith(url, ".xml")
  }

  /** The decision ignores the case of the content type, and a `.xml` URL is XML whatever the
      server declares. */
  lemma IsXmlResponseCaseInsensitive(contentType: string, url: Url)
    ensures IsXmlResponse(contentType, url) == IsXmlResponse(Lower(contentType), url)
    ensures EndsWith(url, ".xml") ==> IsXmlResponse(contentType, url)
  {
    LowerIdempotent(contentType);
  }
}
