/** The HTML sitemap resolver, `parse_html_sitemap` (scraper.py:252-309), as functions: the
    sitemap page's article links seed a set, each category page and each of its `/page/`
    pages add their new article links, and a pattern search over the page's anchors runs only
    when nothing was collected. */
module HtmlSitemap {
  import opened Text
  import opened Web
  import opened Links

  /** The traversal state: the collected links (a set, kept in insertion order) and, as a
      record for the proofs, every URL fetched so far. */
  datatype Crawl = Crawl(found: seq<Url>, fetched: seq<Url>)

  /** What the traversal collects: links on the base site that are neither category nor
      `/page/` pages. */
  predicate IsCollected(base: Url, link: Url)
  {
    Contains(link, base) && !IsCategory(link) && !IsPagination(link)
  }

  predicate AllCollected(base: Url, links: seq<Url>)
  {
    forall l :: l in links ==> IsCollected(base, l)
  }

  /** `all_article_links.update(...)` with the new article links among `links`: the set gains
      exactly the qualifying links of the page. */
  function Harvest(base: Url, found: seq<Url>, links: seq<Url>): (r: seq<Url>)
    ensures found <= r
    ensures NoDups(found) ==> NoDups(r)
    ensures forall l :: l in r <==> l in found || (l in links && IsCollected(base, l))
  {
    AddAll(found, NewArticleLinks(base, found, links))
  }

  /** The page at `page` can be fetched and `l` is one of its links the traversal collects. */
  predicate Yields(env: Env, base: Url, page: Url, l: Url)
  {
    var soup := GetSoup(env, page);
    soup.Some? && l in ExtractLinks(env, base, soup, page) && IsCollected(base, l)
  }

  /** `u` is a `/page/` link found on the category page `cat`. */
  predicate IsPaginationOf(env: Env, base: Url, cat: Url, u: Url)
  {
    var soup := GetSoup(env, cat);
    soup.Some? && u in PaginationLinks(ExtractLinks(env, base, soup, cat))
  }

  /** `l` is collected from the category page `cat` itself or from one of its `/page/` pages. */
  ghost predicate CategoryYields(env: Env, base: Url, cat: Url, l: Url)
  {
    Yields(env, base, cat, l) || exists p :: IsPaginationOf(env, base, cat, p) && Yields(env, base, p, l)
  }

  /** The inner loop over the pagination links of one category page. */
  function CrawlPages(env: Env, base: Url, pages: seq<Url>, c: Crawl): (r: Crawl)
    ensures c.found <= r.found
    ensures NoDups(c.found) ==> NoDups(r.found)
    ensures forall l :: l in r.found <==> l in c.found || exists p :: p in pages && Yields(env, base, p, l)
    ensures forall u :: u in r.fetched ==> u in c.fetched || u in pages
    decreases |pages|
  {
    if pages == [] then c
    else
      var page := pages[0];
      var soup := GetSoup(env, page);
      var found := if soup.Some? then Harvest(base, c.found, ExtractLinks(env, base, soup, page)) else c.found;
      assert forall l :: l in found <==> l in c.found || Yields(env, base, page, l);
      var r := CrawlPages(env, base, pages[1..], Crawl(found, c.fetched + [page]));
      assert forall p :: p in pages <==> p == page || p in pages[1..] by {
        assert pages == [page] + pages[1..];
      }
      r
  }

  /** One iteration of the outer loop: fetch the category page, harvest it, then follow its
      pagination links. */
  function VisitCategory(env: Env, base: Url, cat: Url, c: Crawl): (r: Crawl)
    ensures c.found <= r.found
    ensures NoDups(c.found) ==> NoDups(r.found)
    ensures forall l :: l in r.found <==> l in c.found || CategoryYields(env, base, cat, l)
    ensures forall u :: u in r.fetched ==> u in c.fetched || u == cat || IsPaginationOf(env, base, cat, u)
  {
    var soup := GetSoup(env, cat);
    if soup.None? then Crawl(c.found, c.fetched + [cat])
    else
      var links := ExtractLinks(env, base, soup, cat);
      var pages := PaginationLinks(links);
      var r := CrawlPages(env, base, pages, Crawl(Harvest(base, c.found, links), c.fetched + [cat]));
      assert forall p :: p in pages <==> IsPaginationOf(env, base, cat, p);
      r
  }

  /** The outer loop over the category links of the sitemap page. */
  function CrawlCategories(env: Env, base: Url, cats: seq<Url>, c: Crawl): (r: Crawl)
    ensures c.found <= r.found
    ensures NoDups(c.found) ==> NoDups(r.found)
    ensures forall l :: l in r.found <==> l in c.found || exists k :: k in cats && CategoryYields(env, base, k, l)
    ensures forall u :: u in r.fetched ==>
              u in c.fetched || u in cats || exists k :: k in cats && IsPaginationOf(env, base, k, u)
    decreases |cats|
  {
    if cats == [] then c
    else
      var r := CrawlCategories(env, base, cats[1..], VisitCategory(env, base, cats[0], c));
      assert forall k :: k in cats <==> k == cats[0] || k in cats[1..] by {
        assert cats == [cats[0]] + cats[1..];
      }
      r
  }

  /** The anchors `find_all('a', href=re.compile(pattern))` returns. */
  function MatchingHrefs(env: Env, base: Url, hrefs: seq<string>): (r: seq<string>)
    ensures forall h :: h in r <==> h in hrefs && env.isArticleHref(base, h)
  {
    if hrefs == [] then []
    else
      var last := hrefs[|hrefs| - 1];
      assert hrefs == hrefs[..|hrefs| - 1] + [last];
      MatchingHrefs(env, base, hrefs[..|hrefs| - 1]) + (if env.isArticleHref(base, last) then [last] else [])
  }

  /** The fallback loop: add every non-empty href to the set. */
  function AddHrefs(acc: seq<Url>, hrefs: seq<string>): (r: seq<Url>)
    ensures NoDups(acc) ==> NoDups(r)
    ensures forall h :: h in r <==> h in acc || (h in hrefs && h != "")
    decreases |hrefs|
  {
    if hrefs == [] then acc
    else AddHrefs(if hrefs[0] != "" && hrefs[0] !in acc then acc + [hrefs[0]] else acc, hrefs[1..])
  }

  /** The traversal before any fallback: the sitemap page's article links, then what each of
      its category pages and their `/page/` pages contribute. The collected set holds exactly
      those links, once each, and all of them qualify. */
  function SitemapCrawl(env: Env, base: Url, doc: Document, url: Url): (c: Crawl)
    ensures NoDups(c.found)
    ensures AllCollected(base, c.found)
    ensures var links := ExtractLinks(env, base, Some(doc), url);
            forall l :: l in c.found <==>
              (l in links && IsArticle(l)) || exists k :: k in CategoryLinks(links) && CategoryYields(env, base, k, l)
  {
    var links := ExtractLinks(env, base, Some(doc), url);
    var seed := Dedup(ArticleLinks(links));
    assert AllCollected(base, seed);
    CrawlCategories(env, base, CategoryLinks(links), Crawl(seed, []))
  }

  /** `parse_html_sitemap(soup, current_url)`; its result is a set turned into a list, and every
      link in it is on the site or matched the fallback pattern. */
  function ParseHtmlSitemap(env: Env, base: Url, doc: Document, url: Url): (r: seq<Url>)
    ensures NoDups(r)
    ensures forall l :: l in r ==> IsSiteOrPatternLink(env, base, l)
  {
    var crawl := SitemapCrawl(env, base, doc, url);
    if crawl.found == [] then AddHrefs([], MatchingHrefs(env, base, doc.anchors)) else crawl.found
  }

  /** What the resolver returns: the article links of the sitemap page and every link collected
      from its category pages and their `/page/` pages; nothing else when the traversal
      collected something; exactly the non-empty pattern-matching anchors when it collected
      nothing. */
  lemma HtmlSitemapLinks(env: Env, base: Url, doc: Document, url: Url)
    ensures var r := ParseHtmlSitemap(env, base, doc, url);
            var links := ExtractLinks(env, base, Some(doc), url);
            forall l :: (l in links && IsArticle(l)) || (exists k :: k in CategoryLinks(links) && CategoryYields(env, base, k, l)) ==> l in r
    ensures var crawl := SitemapCrawl(env, base, doc, url);
            crawl.found != [] ==> ParseHtmlSitemap(env, base, doc, url) == crawl.found
    ensures var r := ParseHtmlSitemap(env, base, doc, url);
            SitemapCrawl(env, base, doc, url).found == [] ==>
              forall h :: h in r <==> h in doc.anchors && env.isArticleHref(base, h) && h != ""
  {
  }

  /** The traversal fetches only the category links of the sitemap page and the `/page/`
      links found on those category pages. */
  lemma HtmlSitemapFetches(env: Env, base: Url, doc: Document, url: Url)
    ensures var cats := CategoryLinks(ExtractLinks(env, base, Some(doc), url));
            forall u :: u in SitemapCrawl(env, base, doc, url).fetched ==>
              (u in cats && IsCategory(u)) ||
              (IsPagination(u) && exists k :: k in cats && IsPaginationOf(env, base, k, u))
  {
    var cats := CategoryLinks(ExtractLinks(env, base, Some(doc), url));
    forall u | u in SitemapCrawl(env, base, doc, url).fetched
      ensures (u in cats && IsCategory(u)) ||
              (IsPagination(u) && exists k :: k in cats && IsPaginationOf(env, base, k, u))
    {
      if u !in cats {
        var k :| k in cats && IsPaginationOf(env, base, k, u);
      }
    }
  }
}
