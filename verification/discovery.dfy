/** The sitemap candidate strategy, `get_sitemap_links` (scraper.py:311-397), and the link
    selection of `run` (scraper.py:399-455), as functions. */
module Discovery {
  import opened Text
  import opened Web
  import opened HtmlSitemap
  import opened Links
  import opened XmlSitemap
  import opened ArticlePattern

  /** The scraper's settings that shape discovery: `base_url`, `sitemap_url` and
      `try_wordpress_sitemaps`. */
  datatype Config = Config(baseUrl: Url, sitemapUrl: Option<Url>, tryWordpress: bool)

  /** Python truthiness of an optional string: present and not empty. */
  predicate IsGiven(s: Option<Url>)
  {
    s.Some? && s.value != ""
  }

  /** The listing page the take1bit.com branch falls back to. */
  const Take1bitFallbackPage: Url := "https://take1bit.com/page-448/"

  /** The candidates of the take1bit.com branch, in the order they are tried. */
  function Take1bitCandidates(env: Env, base: Url): (r: seq<Url>)
    ensures |r| == 5 && r[4] == Take1bitFallbackPage
  {
    [env.join(base, "sitemap.xml"), env.join(base, "sitemap_index.xml"), env.join(base, "post-sitemap.xml"),
     env.join(base, "page-sitemap.xml"), Take1bitFallbackPage]
  }

  /** The candidates of the generic branch, in the order they are tried. */
  function GenericCandidates(env: Env, base: Url): seq<Url>
  {
    [env.join(base, "sitemap.xml"), env.join(base, "sitemap_index.xml"), env.join(base, "post-sitemap.xml")]
  }

  /** The take1bit.com branch is taken for that host unless a sitemap URL was given. */
  predicate UsesTake1bitList(cfg: Config)
  {
    Contains(cfg.baseUrl, "take1bit.com") && !IsGiven(cfg.sitemapUrl)
  }

  /** One iteration of the take1bit.com loop: the links the candidate yields, or `None` when the
      loop goes on to the next candidate (the fetch raises, the status is not 200, the XML
      resolver raises, or the HTML page cannot be fetched again). */
  function TryCandidate(env: Env, base: Url, cand: Url): (r: Option<seq<Url>>)
    ensures r.Some? ==> forall l :: l in r.value ==> IsSiteOrPatternLink(env, base, l)
  {
    if !IsOk(env, cand) then None
    else if IsXmlResponse(env.web[cand].contentType, cand) then
      ParseXmlSitemap(env, base, MaxSitemapDepth, cand, env.web[cand].doc.xml)
    else
      var soup := GetSoup(env, cand);
      if soup.None? then None else Some(ParseHtmlSitemap(env, base, soup.value, cand))
  }

  /** The take1bit.com loop: the first candidate that answers 200 and can be read decides,
      even when it yields an empty list. */
  function TryCandidates(env: Env, base: Url, cands: seq<Url>): (r: Option<seq<Url>>)
    ensures r.None? ==> forall c :: c in cands ==> TryCandidate(env, base, c).None?
    ensures r.Some? ==> forall l :: l in r.value ==> IsSiteOrPatternLink(env, base, l)
    decreases |cands|
  {
    if cands == [] then None
    else
      var here := TryCandidate(env, base, cands[0]);
      if here.Some? then here else TryCandidates(env, base, cands[1..])
  }

  /** The candidate loop stops at the first candidate that answers 200 and can be read
      (`TryCandidate` gives `Some`, possibly of an empty list): every earlier one gave `None`,
      and no later one is consulted. */
  lemma {:induction false} TryCandidatesFirstYield(env: Env, base: Url, cands: seq<Url>)
    ensures var r := TryCandidates(env, base, cands);
            r.Some? ==> exists i :: 0 <= i < |cands| && TryCandidate(env, base, cands[i]) == r &&
                                    forall j :: 0 <= j < i ==> TryCandidate(env, base, cands[j]).None?
    decreases |cands|
  {
    if cands != [] && TryCandidate(env, base, cands[0]).None? {
      var rest := TryCandidates(env, base, cands[1..]);
      TryCandidatesFirstYield(env, base, cands[1..]);
      if rest.Some? {
        var i :| 0 <= i < |cands[1..]| && TryCandidate(env, base, cands[1..][i]) == rest &&
                 forall j :: 0 <= j < i ==> TryCandidate(env, base, cands[1..][j]).None?;
        assert TryCandidate(env, base, cands[i + 1]) == rest;
        assert forall j :: 0 <= j < i + 1 ==> TryCandidate(env, base, cands[j]).None? by {
          forall j | 0 <= j < i + 1 ensures TryCandidate(env, base, cands[j]).None? {
            if j > 0 { assert cands[j] == cands[1..][j - 1]; }
          }
        }
      }
    }
  }

  /** The take1bit.com branch: the candidate loop, then the listing page read as HTML. */
  function Take1bitLinks(env: Env, base: Url): (r: seq<Url>)
    ensures forall l :: l in r ==> IsSiteOrPatternLink(env, base, l)
  {
    var found := TryCandidates(env, base, Take1bitCandidates(env, base));
    if found.Some? then found.value
    else
      var soup := GetSoup(env, Take1bitFallbackPage);
      if soup.None? then [] else ParseHtmlSitemap(env, base, soup.value, Take1bitFallbackPage)
  }

  /** The number of candidates that fail before the first one answering 200; `|cands|` when
      none does. */
  function FirstOkIndex(env: Env, cands: seq<Url>): (i: nat)
    ensures i <= |cands|
    ensures forall j :: 0 <= j < i ==> !IsOk(env, cands[j])
    ensures i < |cands| ==> IsOk(env, cands[i])
    decreases |cands|
  {
    if cands == [] || IsOk(env, cands[0]) then 0 else 1 + FirstOkIndex(env, cands[1..])
  }

  /** The sitemap URL of the generic branch: the given one, otherwise the first candidate
      answering 200, otherwise `sitemap.xml` under the base URL. */
  function ChosenSitemap(env: Env, cfg: Config): Url
  {
    if IsGiven(cfg.sitemapUrl) then cfg.sitemapUrl.value
    else
      var cands := GenericCandidates(env, cfg.baseUrl);
      var i := FirstOkIndex(env, cands);
      var found := if i < |cands| then cands[i] else "";
      if found != "" then found else env.join(cfg.baseUrl, "sitemap.xml")
  }

  /** The generic branch: the chosen URL is read as XML when its response says so and the
      resolver does not raise; otherwise it is read as an HTML sitemap. */
  function GenericLinks(env: Env, cfg: Config): (r: seq<Url>)
    ensures forall l :: l in r ==> IsSiteOrPatternLink(env, cfg.baseUrl, l)
  {
    var url := ChosenSitemap(env, cfg);
    var xml :=
      if url in env.web && IsXmlResponse(env.web[url].contentType, url)
      then ParseXmlSitemap(env, cfg.baseUrl, MaxSitemapDepth, url, env.web[url].doc.xml)
      else None;
    if xml.Some? then xml.value
    else
      var soup := GetSoup(env, url);
      if soup.None? then [] else ParseHtmlSitemap(env, cfg.baseUrl, soup.value, url)
  }

  /** `get_sitemap_links()`: in both branches, every link is on the site or an href the
      fallback pattern matched. */
  function GetSitemapLinks(env: Env, cfg: Config): (r: seq<Url>)
    ensures forall l :: l in r ==> IsSiteOrPatternLink(env, cfg.baseUrl, l)
  {
    if UsesTake1bitList(cfg) then Take1bitLinks(env, cfg.baseUrl) else GenericLinks(env, cfg)
  }

  /** The generic branch's choice of sitemap: a given URL is used without any search;
      otherwise the first candidate answering 200 wins, and `sitemap.xml` is the default
      when none does. */
  lemma GenericSitemapChoice(env: Env, cfg: Config)
    ensures IsGiven(cfg.sitemapUrl) ==> ChosenSitemap(env, cfg) == cfg.sitemapUrl.value
    ensures var cands := GenericCandidates(env, cfg.baseUrl);
            forall k ::
              (!IsGiven(cfg.sitemapUrl) && 0 <= k < |cands| && IsOk(env, cands[k]) && cands[k] != "" &&
               (forall j :: 0 <= j < k ==> !IsOk(env, cands[j]))) ==> ChosenSitemap(env, cfg) == cands[k]
    ensures var cands := GenericCandidates(env, cfg.baseUrl);
            !IsGiven(cfg.sitemapUrl) && (forall c :: c in cands ==> !IsOk(env, c)) ==>
              ChosenSitemap(env, cfg) == env.join(cfg.baseUrl, "sitemap.xml")
  {
    var cands := GenericCandidates(env, cfg.baseUrl);
    var i := FirstOkIndex(env, cands);
    if i < |cands| {
      assert cands[i] in cands;
    }
  }

  /** The WordPress sitemaps tried when discovery finds nothing. */
  function WordpressSitemaps(env: Env, base: Url): seq<Url>
  {
    [env.join(base, "post-sitemap.xml"), env.join(base, "page-sitemap.xml"),
     env.join(base, "category-sitemap.xml"), env.join(base, "tag-sitemap.xml")]
  }

  /** The WordPress fallback applies to a base URL mentioning WordPress, in any case, or when
      the flag is set. */
  predicate WantsWordpress(cfg: Config)
  {
    Contains(Lower(cfg.baseUrl), "wordpress") || cfg.tryWordpress
  }

  /** One WordPress sitemap: its URLs when it answers 200 as XML and resolves, else nothing. */
  function WordpressLinksOf(env: Env, base: Url, sitemap: Url): (r: seq<Url>)
    ensures forall l :: l in r ==> IsSiteOrPatternLink(env, base, l)
  {
    if IsOk(env, sitemap) && IsXmlResponse(env.web[sitemap].contentType, sitemap) then
      var r := ParseXmlSitemap(env, base, MaxSitemapDepth, sitemap, env.web[sitemap].doc.xml);
      if r.None? then [] else r.value
    else []
  }

  /** The WordPress loop, extending the list with each sitemap's URLs. */
  function WordpressLinks(env: Env, base: Url, sitemaps: seq<Url>): (r: seq<Url>)
    ensures forall l :: l in r ==> IsSiteOrPatternLink(env, base, l)
  {
    if sitemaps == [] then []
    else WordpressLinks(env, base, sitemaps[..|sitemaps| - 1]) + WordpressLinksOf(env, base, sitemaps[|sitemaps| - 1])
  }

  /** The links `run` has before deduplication. */
  function DiscoveredLinks(env: Env, cfg: Config): (r: seq<Url>)
    ensures forall l :: l in r ==> IsSiteOrPatternLink(env, cfg.baseUrl, l)
  {
    var links := GetSitemapLinks(env, cfg);
    if |links| == 0 && WantsWordpress(cfg) then links + WordpressLinks(env, cfg.baseUrl, WordpressSitemaps(env, cfg.baseUrl))
    else links
  }

  /** `[link for link in article_links if link not in existing_files]`. */
  function Unprocessed(links: seq<Url>, existing: set<Url>): (r: seq<Url>)
    ensures forall l :: l in r <==> l in links && l !in existing
    ensures NoDups(links) ==> NoDups(r)
  {
    if links == [] then []
    else
      var last := links[|links| - 1];
      var init := links[..|links| - 1];
      assert links == init + [last];
      assert NoDups(links) ==> last !in init;
      Unprocessed(init, existing) + (if last !in existing then [last] else [])
  }

  /** The list the scraping loop of `run` goes through: every link in it is on the site or an
      href the fallback pattern matched. */
  function LinksToProcess(env: Env, cfg: Config, existing: set<Url>, maxPages: Option<int>): (r: seq<Url>)
    ensures forall l :: l in r ==> IsSiteOrPatternLink(env, cfg.baseUrl, l)
  {
    var pending := Unprocessed(Dedup(DiscoveredLinks(env, cfg)), existing);
    if maxPages.Some? && maxPages.value > 0 && maxPages.value < |pending| then pending[..maxPages.value] else pending
  }

  /** The WordPress sitemaps are consulted only when discovery found nothing and the site is
      taken for a WordPress site. */
  lemma WordpressOnlyWhenEmpty(env: Env, cfg: Config)
    ensures !(|GetSitemapLinks(env, cfg)| == 0 && WantsWordpress(cfg)) ==> DiscoveredLinks(env, cfg) == GetSitemapLinks(env, cfg)
    ensures |GetSitemapLinks(env, cfg)| == 0 && WantsWordpress(cfg) ==>
              DiscoveredLinks(env, cfg) == WordpressLinks(env, cfg.baseUrl, WordpressSitemaps(env, cfg.baseUrl))
  {
  }

  /** The selected links: no duplicates, none already saved, every one discovered; with a
      positive `max_pages`, at most that many, taken from the front of the pending list;
      without one, every discovered link not yet saved. */
  lemma LinksToProcessSelection(env: Env, cfg: Config, existing: set<Url>, maxPages: Option<int>)
    ensures var r := LinksToProcess(env, cfg, existing, maxPages);
            NoDups(r) && forall l :: l in r ==> l !in existing && l in DiscoveredLinks(env, cfg)
    ensures var r := LinksToProcess(env, cfg, existing, maxPages);
            r <= Unprocessed(Dedup(DiscoveredLinks(env, cfg)), existing)
    ensures var r := LinksToProcess(env, cfg, existing, maxPages);
            maxPages.Some? && maxPages.value > 0 ==>
              |r| <= maxPages.value && |r| == if |Unprocessed(Dedup(DiscoveredLinks(env, cfg)), existing)| < maxPages.value
                                              then |Unprocessed(Dedup(DiscoveredLinks(env, cfg)), existing)| else maxPages.value
    ensures var r := LinksToProcess(env, cfg, existing, maxPages);
            !(maxPages.Some? && maxPages.value > 0) ==>
              forall l :: l in DiscoveredLinks(env, cfg) && l !in existing ==> l in r
  {
    var pending := Unprocessed(Dedup(DiscoveredLinks(env, cfg)), existing);
    var r := LinksToProcess(env, cfg, existing, maxPages);
    assert forall l :: l in r ==> l in pending;
  }

  /** When the fallback pattern only matches links containing the base URL, every link `run`
      goes on to scrape contains the base URL. */
  lemma LinksToProcessOnDomain(env: Env, cfg: Config, existing: set<Url>, maxPages: Option<int>)
    requires forall h :: env.isArticleHref(cfg.baseUrl, h) ==> Contains(h, cfg.baseUrl)
    ensures forall l :: l in LinksToProcess(env, cfg, existing, maxPages) ==> Contains(l, cfg.baseUrl)
  {
  }

  /** With the base URL escaped in the fallback pattern, cross-domain links are never selected. */
  lemma LinksToProcessOnDomainEscaped(env: Env, cfg: Config, existing: set<Url>, maxPages: Option<int>)
    requires forall h :: env.isArticleHref(cfg.baseUrl, h) == EscapedMatch(cfg.baseUrl, h)
    ensures forall l :: l in LinksToProcess(env, cfg, existing, maxPages) ==> Contains(l, cfg.baseUrl)
  {
    forall h | env.isArticleHref(cfg.baseUrl, h) ensures Contains(h, cfg.baseUrl) {
      EscapedMatchIsOnSite(cfg.baseUrl, h);
    }
  }

  /** An href the fallback pattern accepts reaches the scraping list even when it is not on the
      site: a given HTML sitemap page whose only anchor is such an href is enough. */
  lemma OffSiteFallbackIsScheduled(env: Env, cfg: Config, h: Url)
    requires IsGiven(cfg.sitemapUrl)
    requires var url := cfg.sitemapUrl.value;
             url in env.web && env.web[url].status == 200 && !IsXmlResponse(env.web[url].contentType, url) &&
             env.web[url].doc.anchors == [h] && !Contains(env.join(url, h), cfg.baseUrl)
    requires h != "" && env.isArticleHref(cfg.baseUrl, h)
    ensures h in LinksToProcess(env, cfg, {}, None)
  {
    var url := cfg.sitemapUrl.value;
    var base := cfg.baseUrl;
    var doc := env.web[url].doc;
    assert ChosenSitemap(env, cfg) == url;
    assert GetSoup(env, url) == Some(doc);
    var links := ExtractLinks(env, base, Some(doc), url);
    assert links == [] by {
      var anchors := doc.anchors;
      assert anchors[..|anchors| - 1] == [] && anchors[|anchors| - 1] == h;
      assert SiteLinks(env, base, url, []) == [];
      assert !OnSite(base, env.join(url, h));
      assert SiteLinks(env, base, url, anchors) == [];
    }
    var crawl := SitemapCrawl(env, base, doc, url);
    assert crawl.found == [];
    HtmlSitemapLinks(env, base, doc, url);
    assert h in GetSitemapLinks(env, cfg);
    LinksToProcessSelection(env, cfg, {}, None);
  }

  /** The sitemap page of the look-alike example. */
  const LookAlikeSitemap: Url := "https://www.example.com/sitemap/"

  /** A site whose HTML sitemap page links only to the look-alike href, with the fallback
      pattern as scraper.py:303 builds it. */
  function LookAlikeEnv(): Env
  {
    Env(map[LookAlikeSitemap := Response(200, "", Document(Malformed, [LookAlikeHref], ArticleView(None, "", "")))],
        (page, href) => href,
        (base, href) => UnescapedMatch(base, href))
  }

  /** As written, the scraper schedules the look-alike href `https://www-example.com/a/b/` for
      the site `https://www.example.com/`. */
  lemma LookAlikeLinkIsScheduled()
    ensures var cfg := Config(ExampleBase, Some(LookAlikeSitemap), false);
            LookAlikeHref in LinksToProcess(LookAlikeEnv(), cfg, {}, None) && !Contains(LookAlikeHref, cfg.baseUrl)
  {
    var env := LookAlikeEnv();
    var cfg := Config(ExampleBase, Some(LookAlikeSitemap), false);
    LookAlikeMatchesUnescaped();
    assert EndsWith(LookAlikeSitemap, ".xml") == false;
    assert !IsXmlResponse("", LookAlikeSitemap);
    OffSiteFallbackIsScheduled(env, cfg, LookAlikeHref);
  }
}
