# Link discovery of `WebsiteScraper`, modelled in Dafny

`WebsiteScraper` (scraper.py) finds a site's article URLs before it converts each article to
Markdown. It tries well-known sitemap locations in order. It resolves an XML sitemap index
recursively into its URL sets. It reads an HTML page as a pseudo-sitemap: category pages, their
`/page/` pagination pages, and a pattern-matching fallback. When nothing is found and the site
is taken for a WordPress site (the `try_wordpress_sitemaps` flag, or `wordpress` in the lower-cased base URL), it
tries the WordPress sitemaps. It then deduplicates the links, drops those already saved and applies
`max_pages`. This project models that link-discovery core, plus the file-naming helpers and the
visited-URL guard of `process_page`. It proves what the core promises about the links it
returns.

Every fetch is an oracle. `Web.Env.web` maps a URL to a status, a `Content-Type` and a
document. A URL absent from the map is one whose `requests.get` raises. The document holds
what ElementTree, BeautifulSoup and the article extractors would make of the body. `urljoin` is
the opaque function `Env.join`. The fallback regular expression `<base_url>[^/]+/[^/]+/` is the
opaque predicate `Env.isArticleHref`.

Layout, one module per component:

- `text.dfy` (`Text`): Python's substring test, `endswith`, `lower`, and sets kept as
  duplicate-free lists (`AddAll` for `set.update`, `Dedup` for `list(set(..))`).
- `filenames.dfy` (`Filenames`): `sanitize_filename` and the slug-or-title choice of
  `save_to_markdown`.
- `web.dfy` (`Web`): the oracle, `get_soup`, and the XML-or-HTML decision.
- `article_pattern.dfy` (`ArticlePattern`): the fallback regular expression of `parse_html_sitemap`, as written and with the base URL escaped.
- `links.dfy` (`Links`): `extract_links` and the `category` / `/page-` / `/page/` classifiers.
- `xml_sitemap.dfy` (`XmlSitemap`): `parse_xml_sitemap` as recursive functions.
- `html_sitemap.dfy` (`HtmlSitemap`): `parse_html_sitemap` as functions over a traversal state.
- `discovery.dfy` (`Discovery`): `get_sitemap_links` and the link selection of `run`.
- `scraper.dfy` (`Scraper`): the class `WebsiteScraper`. Its fields are the settings,
  `visitedUrls` and `allPages`. Its methods are the source's loops. Each method that returns
  links is proved to compute the specification function named in its `ensures` (`ResolveIndex`
  computes `XmlSitemap.ChildSitemaps`, `CollectLocs` computes `XmlSitemap.LeafUrls`).
  `ProcessPage` changes state instead: its `ensures` gives the new `visitedUrls` and
  `allPages`, and it keeps the invariant `Valid()`.

## Model

| member | source | states |
|---|---|---|
| `Text.AddAll` | scraper.py:279 | Adding links to the set keeps what was there as a prefix and keeps it duplicate-free. Afterwards it holds exactly the old links plus the added ones. |
| `Text.Dedup` | scraper.py:428 | `list(set(links))` is duplicate-free and holds exactly the links of its input. |
| `Filenames.StripForbidden` | scraper.py:104 | The substitution keeps every allowed character of the title, in order, as often as it occurs there. It deletes every forbidden character, and it is the identity on a title without forbidden characters. |
| `Filenames.SpacesToUnderscores` | scraper.py:106 | Every space becomes `_` and every other character stays where it was, so the length is kept. On a string without forbidden characters, it leaves neither forbidden characters nor spaces. |
| `Filenames.SanitizeFilename` | scraper.py:101-110 | The result is a prefix of the title with forbidden characters deleted and spaces made `_`. Its length is that of the stripped title, capped at 100. It has none of the nine forbidden characters and no spaces. |
| `Filenames.SanitizeKeepsCleanName` | scraper.py:104-110 | A name that is already clean is left unchanged. |
| `Filenames.SanitizeIdempotent` | scraper.py:101-110 | Sanitizing twice equals sanitizing once. |
| `Filenames.TrimTrailingSlashes` | scraper.py:125 | `rstrip('/')` removes only slashes, and the result does not end in one. |
| `Filenames.TrimLeadingSlashes` | scraper.py:125 | `lstrip('/')` removes only slashes, and the result does not start with one. |
| `Filenames.LastSegment` | scraper.py:125-126 | The last element of `split('/')` has no slash. It is a suffix that is either the whole string or preceded by a slash. |
| `Filenames.FileStem` | scraper.py:124-132 | The file stem is always a clean name. |
| `Filenames.LastSegmentOfSegment` | scraper.py:125-126 | A slash-free path is its own last segment. |
| `Filenames.LastSegmentAfterSlash` | scraper.py:125-126 | The last segment of `u/seg` is `seg`, whatever `u` is. |
| `Filenames.LastSegmentAfterLeadingTrim` | scraper.py:125 | Stripping leading slashes never reaches into a non-empty final segment. |
| `Filenames.SlugOfArticlePath` | scraper.py:125-126 | The slug of a path `<dir>/<seg>/` with a non-empty, slash-free `seg` is `seg`. |
| `Filenames.FileStemOfArticlePath` | scraper.py:124-132 | For a path `<dir>/<seg>/` whose segment is non-empty and not `index`, the stem is the sanitized segment. |
| `Filenames.FileStemOfIndexPath` | scraper.py:124-130 | A page at `<dir>/index/` is named after its sanitized title. |
| `Filenames.FileStemOfRootPath` | scraper.py:124-130 | A path of slashes only, such as `/`, has an empty slug, so the page is named after its sanitized title. |
| `Web.IsXmlResponseCaseInsensitive` | scraper.py:333 | The XML decision ignores the case of the content type. A URL ending in `.xml` is always handled as XML. |
| `ArticlePattern.EscapedMatchIsOnSite` | scraper.py:303 | Every href the escaped pattern accepts contains the base URL. |
| `ArticlePattern.EscapedMatchIsUnescapedMatch` | scraper.py:303 | Escaping only narrows the pattern: every href the escaped pattern accepts is also accepted by the pattern as written. |
| `ArticlePattern.LookAlikeMatchesUnescaped` | scraper.py:303-304 | The pattern as written accepts `https://www-example.com/a/b/` for the base `https://www.example.com/`. That href does not contain the base, and the escaped pattern rejects it. |
| `Links.SiteLinks` | scraper.py:89-99 | Every kept link contains `base_url` and has no `#`. Every resolved href with both properties is kept. |
| `Links.SiteLinksCounts` | scraper.py:89-97 | Each resolved href that contains `base_url` and has no `#` is kept as often as the anchors produce it, and nothing else is kept: repeats are not removed. |
| `Links.ExtractLinks` | scraper.py:84-99 | A missing page gives `[]`. Otherwise the links are on the site, fragment-free, and complete. |
| `Links.SiteLinksInAnchorOrder` | scraper.py:90-97 | The kept links are a subsequence of the resolved hrefs, so they stay in anchor order. |
| `Links.CategoryLinks` | scraper.py:258 | Holds exactly the links containing `category`. |
| `Links.ArticleLinks` | scraper.py:260 | Holds exactly the links with none of `category`, `/page-` and `/page/`. |
| `Links.PaginationLinks` | scraper.py:271 | Holds exactly the links containing `/page/`. |
| `Links.NewArticleLinks` | scraper.py:274-278 | Holds exactly the on-site links with neither `category` nor `/page/` that are not yet collected. |
| `HtmlSitemap.Harvest` | scraper.py:274-279 | Harvesting a page keeps the collected links as a prefix and keeps them duplicate-free. Afterwards the set holds exactly the old links plus the page's on-site links that are neither category nor `/page/` links. |
| `HtmlSitemap.CrawlPages` | scraper.py:282-293 | The pagination loop keeps the collected links and keeps them duplicate-free. Afterwards the set holds exactly the old links plus the links each fetchable pagination page contributes. It fetches only the given pagination links. |
| `HtmlSitemap.VisitCategory` | scraper.py:264-295 | Afterwards the set holds exactly the old links plus what the category page and each of its `/page/` pages contribute. It fetches only that page and the `/page/` links found on it. |
| `HtmlSitemap.CrawlCategories` | scraper.py:264-295 | Afterwards the set holds exactly the old links plus what every category page and its `/page/` pages contribute. It fetches only category links and their pagination links. |
| `HtmlSitemap.MatchingHrefs` | scraper.py:303-304 | Holds exactly the anchors whose href matches the fallback pattern. |
| `HtmlSitemap.AddHrefs` | scraper.py:305-307 | The fallback adds exactly the non-empty matching hrefs and keeps the set duplicate-free. |
| `HtmlSitemap.SitemapCrawl` | scraper.py:255-295 | The traversal collects, once each, exactly these links: the sitemap page's article links, plus the qualifying links of every category page and of its `/page/` pages. All of them are on the site and are neither category nor `/page/` links. |
| `HtmlSitemap.ParseHtmlSitemap` | scraper.py:252-309 | The returned list has no duplicates. Every link in it contains `base_url` or is a non-empty href the fallback pattern matched. |
| `HtmlSitemap.HtmlSitemapLinks` | scraper.py:258-307 | Every article link of the sitemap page is returned, and so is every link collected from a category page or one of its `/page/` pages. When the traversal collected something, the result is exactly the collected set. When it collected nothing, the result is exactly the non-empty anchors the fallback pattern matches. |
| `HtmlSitemap.HtmlSitemapFetches` | scraper.py:264-292 | Only category links of the sitemap page are fetched, plus `/page/` links found on a fetched category page. |
| `XmlSitemap.LeafUrls` | scraper.py:232-238 | Holds exactly the non-empty `<loc>` texts of the URL set that contain `base_url`. Foreign-domain entries are dropped. How often each text appears is stated by `XmlSitemap.LeafUrlsCounts`. |
| `XmlSitemap.ParseXmlSitemap` | scraper.py:206-250 | The resolver raises only when the recursion limit is reached. At any nesting, including the HTML fallback for malformed XML, every URL it returns contains `base_url` or is an href the fallback pattern matched. |
| `XmlSitemap.ChildUrls` | scraper.py:223-231 | One `<sitemap>` entry contributes only URLs that are on the site or matched the fallback pattern. |
| `XmlSitemap.ChildSitemaps` | scraper.py:221-231 | The same holds for the loop over all entries of an index. |
| `XmlSitemap.LeafUrlsCounts` | scraper.py:234-238 | Each `<loc>` text containing the base URL appears in the result exactly as often as in the URL set, and no other text appears: repeats are kept. |
| `XmlSitemap.LeafUrlsInDocumentOrder` | scraper.py:234-238 | The URL-set result is a subsequence of the `<loc>` texts, so it is in document order. |
| `XmlSitemap.ChildSitemapsAppend` | scraper.py:221-231 | An index's result for `a + b` is the result for `a` followed by the result for `b`. Children are resolved independently, in document order. |
| `XmlSitemap.ChildFailureIsSkipped` | scraper.py:225-231 | A child whose fetch or resolution raises contributes nothing and leaves its siblings' results unchanged. |
| `XmlSitemap.IndexOfUrlSets` | scraper.py:218-238 | An index whose children are all fetchable URL sets yields the concatenation of their on-site leaf URLs, in document order. |
| `XmlSitemap.ChildSitemapsOfUrlSets` | scraper.py:221-231 | The child loop over URL-set children concatenates their leaf URLs. |
| `Discovery.TryCandidates` | scraper.py:325-342 | When the loop gives `None`, no candidate answered 200 and could be read. |
| `Discovery.TryCandidatesFirstYield` | scraper.py:325-342 | The take1bit.com loop returns the result of the first candidate that answers 200 and can be read (XML, or HTML with a page), even when that result is empty. Every earlier candidate gave `None`. |
| `Discovery.TryCandidate` | scraper.py:327-340 | What one take1bit.com candidate yields is on the site or matched the fallback pattern. |
| `Discovery.Take1bitLinks` | scraper.py:314-344 | The same holds for the whole take1bit.com branch, including the listing-page fallback. |
| `Discovery.FirstOkIndex` | scraper.py:363-372 | The probe stops at the first candidate answering 200. Every earlier candidate raised or answered otherwise. |
| `Discovery.GenericSitemapChoice` | scraper.py:353-377 | A given sitemap URL is used with no search. Otherwise the first candidate answering 200 is used. If none answers 200, `sitemap.xml` under the base URL is used. |
| `Discovery.GenericLinks` | scraper.py:353-397 | The generic branch returns only links that are on the site or matched the fallback pattern, whether it reads the chosen URL as XML or as HTML. |
| `Discovery.GetSitemapLinks` | scraper.py:311-397 | Both branches of `get_sitemap_links` return only links that are on the site or matched the fallback pattern. |
| `Discovery.WordpressLinksOf` | scraper.py:416-423 | One WordPress sitemap contributes only links that are on the site or matched the fallback pattern. |
| `Discovery.WordpressLinks` | scraper.py:415-425 | The same holds for the whole WordPress loop. |
| `Discovery.DiscoveredLinks` | scraper.py:403-425 | The same holds for the links `run` has before deduplication. |
| `Discovery.Unprocessed` | scraper.py:451 | Holds exactly the links not already saved, and stays duplicate-free if its input was. |
| `Discovery.LinksToProcess` | scraper.py:399-455 | Every link scheduled for scraping is on the site or is a non-empty href the fallback pattern matched. |
| `Discovery.WordpressOnlyWhenEmpty` | scraper.py:405-425 | The WordPress sitemaps contribute only when discovery returned nothing and the base URL mentions WordPress (any case) or the flag is set. |
| `Discovery.LinksToProcessSelection` | scraper.py:427-455 | The final list has no duplicates and no already-saved URL, and every link in it was discovered. It is a prefix of the pending list. With a positive `max_pages` its length is `min(max_pages, pending)`. Without one, it holds every discovered link not yet saved. |
| `Discovery.LinksToProcessOnDomain` | scraper.py:399-455 | If the fallback pattern only matches hrefs containing `base_url`, every scheduled link contains `base_url`. This is a conditional statement; `Discovery.LookAlikeLinkIsScheduled` shows the condition fails for the pattern as written. |
| `Discovery.OffSiteFallbackIsScheduled` | scraper.py:296-309 | An href the fallback pattern accepts is scheduled even when it does not contain `base_url`. A given HTML sitemap page whose only anchor is such an href is enough. |
| `Discovery.LookAlikeLinkIsScheduled` | scraper.py:303-307 | With the pattern as written, `https://www-example.com/a/b/` is scheduled for the site `https://www.example.com/`, although it does not contain the base URL. |
| `Discovery.LinksToProcessOnDomainEscaped` | scraper.py:303-307 | With the base URL escaped in the pattern, every scheduled link contains `base_url`. |
| `Scraper.WebsiteScraper.constructor` | scraper.py:17-26 | A new scraper has the given settings and no visited URLs or pages. |
| `Scraper.WebsiteScraper.ProcessPage` | scraper.py:175-204 | A visited URL changes nothing and returns nothing. Otherwise the URL is marked visited, and a fetchable page's info is appended and returned. Every kept page was visited, and no URL is kept twice. |
| `Scraper.WebsiteScraper.ExtractLinks` | scraper.py:84-99 | The append loop computes `Links.ExtractLinks`. |
| `Scraper.WebsiteScraper.ParseXmlSitemap` | scraper.py:206-250 | The recursive method computes `XmlSitemap.ParseXmlSitemap`: the child loop, the `<loc>` loop, and the HTML fallback on malformed XML. |
| `Scraper.WebsiteScraper.ResolveIndex` | scraper.py:221-231 | The loop over an index's `<sitemap>` entries computes `XmlSitemap.ChildSitemaps`. It resolves each child recursively and skips a child that raises. |
| `Scraper.WebsiteScraper.CollectLocs` | scraper.py:232-238 | The loop over a URL set's `<loc>` entries computes `XmlSitemap.LeafUrls`. |
| `Scraper.WebsiteScraper.ParseHtmlSitemap` | scraper.py:252-309 | The nested category and pagination loops and the fallback loop compute `HtmlSitemap.ParseHtmlSitemap`. |
| `Scraper.WebsiteScraper.GetSitemapLinks` | scraper.py:311-397 | The candidate loops, with their early returns and `break`, compute `Discovery.GetSitemapLinks`. The XML path is taken iff the response is XML by content type or extension, the fetch does not raise and, for the take1bit.com candidates, it answered 200. |
| `Scraper.WebsiteScraper.LinksToProcess` | scraper.py:399-455 | The WordPress loop, deduplication, exclusion and truncation compute `Discovery.LinksToProcess`. |

## Left out

- Network I/O (`requests.get`, headers, the user agent) is left out. The oracle `Env.web` answers every fetch of a URL the same way. So a page that answered 200 cannot fail its second fetch (scraper.py:338-340). The model keeps that branch, but the oracle never takes it.
- `time.sleep` and the `delay` setting are left out because they only pace requests. `print` diagnostics are left out because they have no effect on results.
- BeautifulSoup, ElementTree and html2text are represented by their results in `Web.Document`. So `extract_content`, `extract_date` and `html_to_markdown` are not modelled; their outputs are the abstract fields of `ArticleView`. The model also leaves out ElementTree's namespace handling and the XPath queries.
- `urljoin` is the opaque function `Env.join`. The fallback regular expression is the opaque predicate `Env.isArticleHref` throughout the resolvers. `ArticlePattern` gives it a definition for the findings below, for base URLs whose only regular-expression metacharacter is `.`; other metacharacters in a base URL are not modelled.
- `urlparse` is not modelled. `Filenames.FileStem` takes the URL's path as its input.
- `str.lower()` is modelled for ASCII letters only.
- Python set iteration order is hash-dependent. The model takes insertion order for `list(set(..))` and for the accumulator of `parse_html_sitemap`. All the properties proved about these lists hold whatever the order, except their exact order.
- XmlSitemap.ParseXmlSitemap: Python's recursion limit is modelled as `XmlSitemap.MaxSitemapDepth` (16) levels of nested sitemap indexes, a deliberate bound rather than Python's. Python's default limit of about 1000 frames resolves indexes nested far deeper than 16; in the model an index chain deeper than 16 levels raises, is caught by the caller's `except Exception`, and yields nothing.
- File-system work is left out: the writes of `save_to_markdown` and the scan of saved `*.md` files for their `url:` line (scraper.py:437-448). The set of already-saved URLs is an input.
- The per-article loop of `run` (scraper.py:459-472), `main` and the argument parsing are left out.
- PageInfoOf: stores "No Title" only when the page has no `<title>` element. In Python, `soup.title.string` is `None` when the title element has no single string child, and that `None` is stored as the title. `ArticleView.title` cannot express this case.
- Three behaviours of the code worth knowing, which the model follows:
  - the WordPress sitemaps are used only when they answer 200 with an XML response;
  - the generic branch falls back to `sitemap.xml` and then to reading that URL as HTML;
  - category and pagination pages let `/page-` links through to the collected set, and only the sitemap page's own links exclude them.

## Findings

| source | as written | input that shows it | evidently intended | confidence | as-written member | corrected member |
|---|---|---|---|---|---|---|
| scraper.py:303 | The fallback pattern `rf'{self.base_url}[^/]+/[^/]+/'` pastes the base URL in unescaped, so each `.` in it matches any character. The fallback at scraper.py:304-307 then adds hrefs on other hosts. | Base `https://www.example.com/`, a given HTML sitemap page whose only anchor is `https://www-example.com/a/b/`. That href is scheduled for scraping. | Only hrefs under the base URL match, as with `re.escape(self.base_url)`. | high; not executed | `Discovery.LookAlikeLinkIsScheduled` | `Discovery.LinksToProcessOnDomainEscaped` |
