/** Link extraction and the substring classifiers of the HTML sitemap resolver (scraper.py). */
module Links {
  import opened Text
  import opened Web

  /** A link `extract_links` keeps: it contains the base URL and has no fragment mark. */
  predicate OnSite(base: Url, link: Url)
  {
    Contains(link, base) && '#' !in link
  }

  /** A link a resolver may hand back: one containing the base URL, or a non-empty href the
      fallback pattern of `parse_html_sitemap` matched. */
  predicate IsSiteOrPatternLink(env: Env, base: Url, link: Url)
  {
    Contains(link, base) || (link != "" && env.isArticleHref(base, link))
  }

  /** Every href resolved against the page URL, in anchor order. */
  function Resolve(env: Env, current: Url, hrefs: seq<string>): (r: seq<Url>)
    ensures |r| == |hrefs|
  {
    seq(|hrefs|, i requires 0 <= i < |hrefs| => env.join(current, hrefs[i]))
  }

  /** The loop of `extract_links` over the anchors `hrefs` of a page at `current`. */
  function SiteLinks(env: Env, base: Url, current: Url, hrefs: seq<string>): (links: seq<Url>)
    ensures forall l :: l in links ==> OnSite(base, l)
    ensures forall h :: h in hrefs && OnSite(base, env.join(current, h)) ==> env.join(current, h) in links
  {
    if hrefs == [] then []
    else
      var init := hrefs[..|hrefs| - 1];
      var url := env.join(current, hrefs[|hrefs| - 1]);
      assert hrefs == init + [hrefs[|hrefs| - 1]];
      SiteLinks(env, base, current, init) + (if OnSite(base, url) then [url] else [])
  }

  /** `extract_links` keeps each on-site resolved href as often as its anchors produce it, and
      nothing else: the list is not deduplicated here. */
  lemma {:induction false} SiteLinksCounts(env: Env, base: Url, current: Url, hrefs: seq<string>)
    ensures forall u :: multiset(SiteLinks(env, base, current, hrefs))[u] ==
                        if OnSite(base, u) then multiset(Resolve(env, current, hrefs))[u] else 0
    decreases |hrefs|
  {
    if hrefs != [] {
      var init := hrefs[..|hrefs| - 1];
      var url := env.join(current, hrefs[|hrefs| - 1]);
      SiteLinksCounts(env, base, current, init);
      assert Resolve(env, current, hrefs) == Resolve(env, current, init) + [url];
      assert multiset(SiteLinks(env, base, current, hrefs)) == multiset(SiteLinks(env, base, current, init))
        + multiset(if OnSite(base, url) then [url] else []);
    }
  }

  /** `extract_links(soup, current_url)`: nothing for a missing page, otherwise the same-site
      links of its anchors. */
  function ExtractLinks(env: Env, base: Url, soup: Option<Document>, current: Url): (links: seq<Url>)
    ensures soup.None? ==> links == []
    ensures forall l :: l in links ==> OnSite(base, l)
    ensures soup.Some? ==> forall h :: h in soup.value.anchors && OnSite(base, env.join(current, h)) ==> env.join(current, h) in links
  {
    match soup
    case None => []
    case Some(doc) => SiteLinks(env, base, current, doc.anchors)
  }

  /** The links `extract_links` keeps appear in the order of their anchors. */
  lemma {:induction false} SiteLinksInAnchorOrder(env: Env, base: Url, current: Url, hrefs: seq<string>)
    ensures IsSubsequence(SiteLinks(env, base, current, hrefs), Resolve(env, current, hrefs))
    decreases |hrefs|
  {
    var links := SiteLinks(env, base, current, hrefs);
    var all := Resolve(env, current, hrefs);
    if hrefs != [] {
      var init := hrefs[..|hrefs| - 1];
      var url := env.join(current, hrefs[|hrefs| - 1]);
      SiteLinksInAnchorOrder(env, base, current, init);
      assert all[..|all| - 1] == Resolve(env, current, init);
      assert all[|all| - 1] == url;
      if OnSite(base, url) {
        assert links[..|links| - 1] == SiteLinks(env, base, current, init);
      } else if links != [] {
        assert links == SiteLinks(env, base, current, init);
        assert links[|links| - 1] in links;
        assert links[|links| - 1] != url;
      }
    }
  }

  /** `'category' in link`: a category listing page. */
  predicate IsCategory(link: Url)
  {
    Contains(link, "category")
  }

  /** `'/page/' in link`: a pagination page. */
  predicate IsPagination(link: Url)
  {
    Contains(link, "/page/")
  }

  /** An article link of the sitemap page: neither category nor pagination (`/page-` or `/page/`). */
  predicate IsArticle(link: Url)
  {
    !Contains(link, "category") && !Contains(link, "/page-") && !Contains(link, "/page/")
  }

  /** A link a category or pagination page contributes: on the base site, not a category,
      not `/page/` (a `/page-` link is let through here), and not yet collected. */
  predicate IsNewArticle(base: Url, found: seq<Url>, link: Url)
  {
    !Contains(link, "category") && !Contains(link, "/page/") && link !in found && Contains(link, base)
  }

  /** `[link for link in links if 'category' in link]`. */
  function CategoryLinks(links: seq<Url>): (r: seq<Url>)
    ensures forall l :: l in r <==> l in links && IsCategory(l)
  {
    if links == [] then []
    else
      var last := links[|links| - 1];
      assert links == links[..|links| - 1] + [last];
      CategoryLinks(links[..|links| - 1]) + (if IsCategory(last) then [last] else [])
  }

  /** The article links of the sitemap page (scraper.py:260). */
  function ArticleLinks(links: seq<Url>): (r: seq<Url>)
    ensures forall l :: l in r <==> l in links && IsArticle(l)
  {
    if links == [] then []
    else
      var last := links[|links| - 1];
      assert links == links[..|links| - 1] + [last];
      ArticleLinks(links[..|links| - 1]) + (if IsArticle(last) then [last] else [])
  }

  /** `[link for link in cat_links if '/page/' in link]`. */
  function PaginationLinks(links: seq<Url>): (r: seq<Url>)
    ensures forall l :: l in r <==> l in links && IsPagination(l)
  {
    if links == [] then []
    else
      var last := links[|links| - 1];
      assert links == links[..|links| - 1] + [last];
      PaginationLinks(links[..|links| - 1]) + (if IsPagination(last) then [last] else [])
  }

  /** The comprehensions `cat_article_links` and `page_article_links`. */
  function NewArticleLinks(base: Url, found: seq<Url>, links: seq<Url>): (r: seq<Url>)
    ensures forall l :: l in r <==> l in links && IsNewArticle(base, found, l)
  {
    if links == [] then []
    else
      var last := links[|links| - 1];
      assert links == links[..|links| - 1] + [last];
      NewArticleLinks(base, found, links[..|links| - 1]) + (if IsNewArticle(base, found, last) then [last] else [])
  }
}
