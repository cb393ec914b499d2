/** The `WebsiteScraper` class (scraper.py:16-455): its settings, the visited-URL guard of
    `process_page`, and the link-discovery methods written as the loops they are. Each method
    that returns links is proved to compute the function its `ensures` names in `Links`,
    `XmlSitemap`, `HtmlSitemap` or `Discovery`; `ProcessPage` changes the scraper's state and
    keeps `Valid()`. */
module Scraper {
  import opened Text
  import opened Web
  import Links
  import HtmlSitemap
  import XmlSitemap
  import Discovery

  /** The `page_info` dictionary `process_page` builds and keeps. */
  datatype PageInfo = PageInfo(url: Url, title: string, date: string, content: string)

  /** The `page_info` of a page that was fetched: the title (or "No Title" when the page has no
      title element), the date and the Markdown text. */
  function PageInfoOf(url: Url, doc: Document): PageInfo
  {
    PageInfo(url, if doc.article.title.Some? then doc.article.title.value else "No Title",
             doc.article.date, doc.article.markdown)
  }

  class WebsiteScraper {
    const baseUrl: Url
    const sitemapUrl: Option<Url>
    const tryWordpress: bool
    var visitedUrls: set<Url>
    var allPages: seq<PageInfo>

    /** Every kept page was visited, and no URL is kept twice. */
    ghost predicate Valid()
      reads this
    {
      && (forall p :: p in allPages ==> p.url in visitedUrls)
      && (forall i, j :: 0 <= i < j < |allPages| ==> allPages[i].url != allPages[j].url)
    }

    function Config(): Discovery.Config
    {
      Discovery.Config(baseUrl, sitemapUrl, tryWordpress)
    }

    constructor (baseUrl: Url, sitemapUrl: Option<Url>, tryWordpress: bool)
      ensures Valid()
      ensures this.baseUrl == baseUrl && this.sitemapUrl == sitemapUrl && this.tryWordpress == tryWordpress
      ensures visitedUrls == {} && allPages == []
    {
      this.baseUrl := baseUrl;
      this.sitemapUrl := sitemapUrl;
      this.tryWordpress := tryWordpress;
      visitedUrls := {};
      allPages := [];
    }

    /** `process_page(url)`: a visited URL is not processed again; otherwise it is marked
        visited and, when the page can be fetched, its `page_info` is kept and returned. */
    method ProcessPage(env: Env, url: Url) returns (info: Option<PageInfo>)
      requires Valid()
      modifies this
      ensures Valid()
      ensures url in old(visitedUrls) ==> info.None? && visitedUrls == old(visitedUrls) && allPages == old(allPages)
      ensures url !in old(visitedUrls) ==>
                && visitedUrls == old(visitedUrls) + {url}
                && info == (var soup := GetSoup(env, url); if soup.Some? then Some(PageInfoOf(url, soup.value)) else None)
                && allPages == old(allPages) + (if info.Some? then [info.value] else [])
    {
      if url in visitedUrls {
        return None;
      }
      visitedUrls := visitedUrls + {url};
      var soup := GetSoup(env, url);
      if soup.Some? {
        var page := PageInfoOf(url, soup.value);
        allPages := allPages + [page];
        return Some(page);
      }
      return None;
    }

    /** `extract_links(soup, current_url)`. */
    method ExtractLinks(env: Env, soup: Option<Document>, current: Url) returns (links: seq<Url>)
      ensures links == Links.ExtractLinks(env, baseUrl, soup, current)
    {
      if soup.None? {
        return [];
      }
      var anchors := soup.value.anchors;
      links := [];
      var i := 0;
      while i < |anchors|
        invariant 0 <= i <= |anchors|
        invariant links == Links.SiteLinks(env, baseUrl, current, anchors[..i])
      {
        var absoluteUrl := env.join(current, anchors[i]);
        assert anchors[..i + 1][..i] == anchors[..i];
        if Contains(absoluteUrl, baseUrl) && '#' !in absoluteUrl {
          links := links + [absoluteUrl];
        }
        i := i + 1;
      }
      assert anchors[..|anchors|] == anchors;
    }

    /** `parse_xml_sitemap(sitemap_url, xml_content)`; `None` stands for the exception raised
        when the recursion limit is reached. */
    method ParseXmlSitemap(env: Env, depth: nat, url: Url, doc: SitemapDoc) returns (r: Option<seq<Url>>)
      ensures r == XmlSitemap.ParseXmlSitemap(env, baseUrl, depth, url, doc)
      decreases depth, 0
    {
      if depth == 0 {
        return None;
      }
      match doc
      case SitemapIndex(sitemaps) =>
        var allUrls := ResolveIndex(env, depth - 1, sitemaps);
        return Some(allUrls);
      case UrlSet(locs) =>
        var allUrls := CollectLocs(locs);
        return Some(allUrls);
      case Malformed =>
        var soup := GetSoup(env, url);
        if soup.Some? {
          var htmlUrls := ParseHtmlSitemap(env, soup.value, url);
          return Some(htmlUrls);
        }
        return Some([]);
    }

    /** The loop of `parse_xml_sitemap` over the `<sitemap>` entries of an index: each child is
        fetched and resolved, and a child that raises is skipped. */
    method ResolveIndex(env: Env, depth: nat, sitemaps: seq<Option<string>>) returns (allUrls: seq<Url>)
      ensures allUrls == XmlSitemap.ChildSitemaps(env, baseUrl, depth, sitemaps)
      decreases depth, 1
    {
      allUrls := [];
      var i := 0;
      while i < |sitemaps|
        invariant 0 <= i <= |sitemaps|
        invariant allUrls == XmlSitemap.ChildSitemaps(env, baseUrl, depth, sitemaps[..i])
      {
        assert sitemaps[..i + 1][..i] == sitemaps[..i];
        var loc := sitemaps[i];
        if loc.Some? && loc.value != "" && loc.value in env.web {
          var subUrls := ParseXmlSitemap(env, depth, loc.value, env.web[loc.value].doc.xml);
          if subUrls.Some? {
            allUrls := allUrls + subUrls.value;
          }
        }
        i := i + 1;
      }
      assert sitemaps[..|sitemaps|] == sitemaps;
    }

    /** The loop of `parse_xml_sitemap` over the `<url>` entries of a URL set. */
    method CollectLocs(locs: seq<Option<string>>) returns (allUrls: seq<Url>)
      ensures allUrls == XmlSitemap.LeafUrls(baseUrl, locs)
    {
      allUrls := [];
      var i := 0;
      while i < |locs|
        invariant 0 <= i <= |locs|
        invariant allUrls == XmlSitemap.LeafUrls(baseUrl, locs[..i])
      {
        assert locs[..i + 1][..i] == locs[..i];
        var loc := locs[i];
        if loc.Some? && loc.value != "" && Contains(loc.value, baseUrl) {
          allUrls := allUrls + [loc.value];
        }
        i := i + 1;
      }
      assert locs[..|locs|] == locs;
    }

    /** `parse_html_sitemap(soup, current_url)`. */
    method ParseHtmlSitemap(env: Env, doc: Document, url: Url) returns (r: seq<Url>)
      ensures r == HtmlSitemap.ParseHtmlSitemap(env, baseUrl, doc, url)
    {
      var links := ExtractLinks(env, Some(doc), url);
      var categoryLinks := Links.CategoryLinks(links);
      var articleLinks := Links.ArticleLinks(links);
      var allArticleLinks := Dedup(articleLinks);
      ghost var fetched: seq<Url> := [];
      ghost var goal := HtmlSitemap.SitemapCrawl(env, baseUrl, doc, url);
      var i := 0;
      while i < |categoryLinks|
        invariant 0 <= i <= |categoryLinks|
        invariant HtmlSitemap.CrawlCategories(env, baseUrl, categoryLinks[i..], HtmlSitemap.Crawl(allArticleLinks, fetched)) == goal
      {
        var catLink := categoryLinks[i];
        ghost var before := HtmlSitemap.Crawl(allArticleLinks, fetched);
        assert categoryLinks[i..][1..] == categoryLinks[i + 1..];
        fetched := fetched + [catLink];
        var catSoup := GetSoup(env, catLink);
        if catSoup.Some? {
          var catLinks := ExtractLinks(env, catSoup, catLink);
          var paginationLinks := Links.PaginationLinks(catLinks);
          allArticleLinks := AddAll(allArticleLinks, Links.NewArticleLinks(baseUrl, allArticleLinks, catLinks));
          var j := 0;
          while j < |paginationLinks|
            invariant 0 <= j <= |paginationLinks|
            invariant HtmlSitemap.CrawlPages(env, baseUrl, paginationLinks[j..], HtmlSitemap.Crawl(allArticleLinks, fetched))
                   == HtmlSitemap.VisitCategory(env, baseUrl, catLink, before)
          {
            var pageLink := paginationLinks[j];
            assert paginationLinks[j..][1..] == paginationLinks[j + 1..];
            fetched := fetched + [pageLink];
            var pageSoup := GetSoup(env, pageLink);
            if pageSoup.Some? {
              var pageLinks := ExtractLinks(env, pageSoup, pageLink);
              allArticleLinks := AddAll(allArticleLinks, Links.NewArticleLinks(baseUrl, allArticleLinks, pageLinks));
            }
            j := j + 1;
          }
        }
        i := i + 1;
      }
      if allArticleLinks == [] {
        var articleATags := HtmlSitemap.MatchingHrefs(env, baseUrl, doc.anchors);
        var k := 0;
        while k < |articleATags|
          invariant 0 <= k <= |articleATags|
          invariant HtmlSitemap.AddHrefs(allArticleLinks, articleATags[k..]) == HtmlSitemap.AddHrefs([], articleATags)
        {
          var href := articleATags[k];
          assert articleATags[k..][1..] == articleATags[k + 1..];
          if href != "" && href !in allArticleLinks {
            allArticleLinks := allArticleLinks + [href];
          }
          k := k + 1;
        }
      }
      return allArticleLinks;
    }

    /** `get_sitemap_links()`. */
    method GetSitemapLinks(env: Env) returns (links: seq<Url>)
      ensures links == Discovery.GetSitemapLinks(env, Config())
    {
      if Contains(baseUrl, "take1bit.com") && !Discovery.IsGiven(sitemapUrl) {
        var candidates := Discovery.Take1bitCandidates(env, baseUrl);
        var i := 0;
        while i < |candidates|
          invariant 0 <= i <= |candidates|
          invariant Discovery.TryCandidates(env, baseUrl, candidates[i..]) == Discovery.TryCandidates(env, baseUrl, candidates)
        {
          var candidate := candidates[i];
          assert candidates[i..][1..] == candidates[i + 1..];
          if candidate in env.web && env.web[candidate].status == 200 {
            var response := env.web[candidate];
            if IsXmlResponse(response.contentType, candidate) {
              var xmlUrls := ParseXmlSitemap(env, XmlSitemap.MaxSitemapDepth, candidate, response.doc.xml);
              if xmlUrls.Some? {
                return xmlUrls.value;
              }
            } else {
              var soup := GetSoup(env, candidate);
              if soup.Some? {
                links := ParseHtmlSitemap(env, soup.value, candidate);
                return;
              }
            }
          }
          i := i + 1;
        }
        var fallback := candidates[|candidates| - 1];
        var soup := GetSoup(env, fallback);
        if soup.Some? {
          links := ParseHtmlSitemap(env, soup.value, fallback);
          return;
        }
        return [];
      }
      var chosen := sitemapUrl;
      if !Discovery.IsGiven(chosen) {
        var candidates := Discovery.GenericCandidates(env, baseUrl);
        var i := 0;
        while i < |candidates|
          invariant 0 <= i <= |candidates|
          invariant forall j :: 0 <= j < i ==> !IsOk(env, candidates[j])
          invariant chosen == sitemapUrl
        {
          if candidates[i] in env.web && env.web[candidates[i]].status == 200 {
            chosen := Some(candidates[i]);
            break;
          }
          i := i + 1;
        }
        assert chosen != sitemapUrl ==> chosen == Some(candidates[Discovery.FirstOkIndex(env, candidates)]);
      }
      if !Discovery.IsGiven(chosen) {
        chosen := Some(env.join(baseUrl, "sitemap.xml"));
      }
      var url := chosen.value;
      assert url == Discovery.ChosenSitemap(env, Config());
      if url in env.web {
        var response := env.web[url];
        if IsXmlResponse(response.contentType, url) {
          var xmlUrls := ParseXmlSitemap(env, XmlSitemap.MaxSitemapDepth, url, response.doc.xml);
          if xmlUrls.Some? {
            return xmlUrls.value;
          }
        }
      }
      var soup := GetSoup(env, url);
      if soup.Some? {
        links := ParseHtmlSitemap(env, soup.value, url);
        return;
      }
      return [];
    }

    /** The link selection of `run(max_pages)`: discovery, the WordPress fallback,
        deduplication, exclusion of the URLs already saved (`existing`), and truncation. */
    method LinksToProcess(env: Env, existing: set<Url>, maxPages: Option<int>) returns (linksToProcess: seq<Url>)
      ensures linksToProcess == Discovery.LinksToProcess(env, Config(), existing, maxPages)
    {
      var articleLinks := GetSitemapLinks(env);
      ghost var discovered := Discovery.DiscoveredLinks(env, Config());
      if |articleLinks| == 0 && (Contains(Lower(baseUrl), "wordpress") || tryWordpress) {
        var wordpressSitemaps := Discovery.WordpressSitemaps(env, baseUrl);
        var i := 0;
        while i < |wordpressSitemaps|
          invariant 0 <= i <= |wordpressSitemaps|
          invariant articleLinks == Discovery.WordpressLinks(env, baseUrl, wordpressSitemaps[..i])
        {
          var wpSitemap := wordpressSitemaps[i];
          assert wordpressSitemaps[..i + 1][..i] == wordpressSitemaps[..i];
          ghost var expected := Discovery.WordpressLinksOf(env, baseUrl, wpSitemap);
          assert Discovery.WordpressLinks(env, baseUrl, wordpressSitemaps[..i + 1]) == articleLinks + expected;
          if wpSitemap in env.web {
            var response := env.web[wpSitemap];
            if response.status == 200 && IsXmlResponse(response.contentType, wpSitemap) {
              var wpLinks := ParseXmlSitemap(env, XmlSitemap.MaxSitemapDepth, wpSitemap, response.doc.xml);
              if wpLinks.Some? && wpLinks.value != [] {
                articleLinks := articleLinks + wpLinks.value;
              }
            }
          }
          i := i + 1;
        }
        assert wordpressSitemaps[..|wordpressSitemaps|] == wordpressSitemaps;
      }
      assert articleLinks == discovered;
      var unique := Dedup(articleLinks);
      linksToProcess := Discovery.Unprocessed(unique, existing);
      if maxPages.Some? && maxPages.value > 0 && maxPages.value < |linksToProcess| {
        linksToProcess := linksToProcess[..maxPages.value];
      }
    }
  }
}
