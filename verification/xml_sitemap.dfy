/** The XML sitemap resolver, `parse_xml_sitemap` (scraper.py:206-250), as functions. A
    sitemap index is resolved by fetching and resolving each child sitemap in turn; a URL set
    yields its on-site `<loc>` texts; a body ElementTree rejects is re-fetched and read as an
    HTML sitemap.

    Python's recursion limit is modelled by `depth`: a call made with no depth left raises
    (`RecursionError`), and so do the calls it would make. Every caller of the resolver runs it
    inside `try ... except Exception`, so a raise is a value here: `None`. */
module XmlSitemap {
  import opened Text
  import opened Web
  import opened Links
  import opened HtmlSitemap

  /** The nesting of sitemap indexes the model resolves before the recursion limit is hit. */
  const MaxSitemapDepth: nat := 16

  /** The URL-set branch: each non-empty `<loc>` text that contains the base URL. */
  function LeafUrls(base: Url, locs: seq<Option<string>>): (r: seq<Url>)
    ensures forall u :: u in r ==> u != "" && Contains(u, base)
    ensures forall u :: Some(u) in locs && u != "" && Contains(u, base) ==> u in r
  {
    if locs == [] then []
    else
      var last := locs[|locs| - 1];
      assert locs == locs[..|locs| - 1] + [last];
      LeafUrls(base, locs[..|locs| - 1])
        + (if last.Some? && last.value != "" && Contains(last.value, base) then [last.value] else [])
  }

  /** The `<loc>` texts of a URL set, in document order. */
  function LocTexts(locs: seq<Option<string>>): (r: seq<string>)
  {
    if locs == [] then []
    else
      var last := locs[|locs| - 1];
      LocTexts(locs[..|locs| - 1]) + (if last.Some? && last.value != "" then [last.value] else [])
  }

  /** `parse_xml_sitemap(sitemap_url, xml_content)`: `None` when it raises, otherwise the URLs. */
  function ParseXmlSitemap(env: Env, base: Url, depth: nat, url: Url, doc: SitemapDoc): (r: Option<seq<Url>>)
    ensures depth == 0 <==> r.None?
    ensures r.Some? ==> forall u :: u in r.value ==> IsSiteOrPatternLink(env, base, u)
    decreases depth, 0
  {
    if depth == 0 then None
    else
      match doc
      case SitemapIndex(sitemaps) => Some(ChildSitemaps(env, base, depth - 1, sitemaps))
      case UrlSet(locs) => Some(LeafUrls(base, locs))
      case Malformed =>
        var soup := GetSoup(env, url);
        if soup.None? then Some([]) else Some(ParseHtmlSitemap(env, base, soup.value, url))
  }

  /** What one `<sitemap>` entry of an index contributes: nothing when it has no location, when
      its fetch raises or when resolving it raises; otherwise the child's URLs. */
  function ChildUrls(env: Env, base: Url, depth: nat, loc: Option<string>): (r: seq<Url>)
    ensures forall u :: u in r ==> IsSiteOrPatternLink(env, base, u)
    decreases depth, 1
  {
    if loc.None? || loc.value == "" || loc.value !in env.web then []
    else
      var sub := ParseXmlSitemap(env, base, depth, loc.value, env.web[loc.value].doc.xml);
      if sub.None? then [] else sub.value
  }

  /** The loop over the entries of a sitemap index, extending the list with each child's URLs. */
  function ChildSitemaps(env: Env, base: Url, depth: nat, sitemaps: seq<Option<string>>): (r: seq<Url>)
    ensures forall u :: u in r ==> IsSiteOrPatternLink(env, base, u)
    decreases depth, |sitemaps| + 1
  {
    if sitemaps == [] then []
    else
      ChildSitemaps(env, base, depth, sitemaps[..|sitemaps| - 1])
        + ChildUrls(env, base, depth, sitemaps[|sitemaps| - 1])
  }

  /** A URL set yields each `<loc>` text containing the base URL as often as it occurs, and no
      other text: repeats are kept, the list is not deduplicated here. */
  lemma {:induction false} LeafUrlsCounts(base: Url, locs: seq<Option<string>>)
    ensures forall u :: multiset(LeafUrls(base, locs))[u] == if Contains(u, base) then multiset(LocTexts(locs))[u] else 0
    decreases |locs|
  {
    if locs != [] {
      var init := locs[..|locs| - 1];
      var last := locs[|locs| - 1];
      LeafUrlsCounts(base, init);
      assert multiset(LocTexts(locs)) == multiset(LocTexts(init)) + multiset(if last.Some? && last.value != "" then [last.value] else []);
      assert multiset(LeafUrls(base, locs)) == multiset(LeafUrls(base, init))
        + multiset(if last.Some? && last.value != "" && Contains(last.value, base) then [last.value] else []);
    }
  }

  /** The URLs a URL set yields are a subsequence of its `<loc>` texts, so they keep document
      order. */
  lemma {:induction false} LeafUrlsInDocumentOrder(base: Url, locs: seq<Option<string>>)
    ensures IsSubsequence(LeafUrls(base, locs), LocTexts(locs))
    decreases |locs|
  {
    if locs != [] {
      var init := locs[..|locs| - 1];
      var last := locs[|locs| - 1];
      var r := LeafUrls(base, locs);
      var all := LocTexts(locs);
      LeafUrlsInDocumentOrder(base, init);
      if last.Some? && last.value != "" {
        assert all[..|all| - 1] == LocTexts(init);
        if Contains(last.value, base) {
          assert r[..|r| - 1] == LeafUrls(base, init);
        } else if r != [] {
          assert r == LeafUrls(base, init);
          assert r[|r| - 1] in r;
        }
      } else {
        assert all == LocTexts(init);
        assert r == LeafUrls(base, init);
      }
    }
  }

  /** The entries of an index are resolved independently: the result for a split list is the
      concatenation of the results for its parts. */
  lemma {:induction false} ChildSitemapsAppend(env: Env, base: Url, depth: nat, a: seq<Option<string>>, b: seq<Option<string>>)
    ensures ChildSitemaps(env, base, depth, a + b)
         == ChildSitemaps(env, base, depth, a) + ChildSitemaps(env, base, depth, b)
    decreases |b|
  {
    if b == [] {
      assert a + b == a;
    } else {
      var init := b[..|b| - 1];
      assert (a + b)[..|a + b| - 1] == a + init;
      assert (a + b)[|a + b| - 1] == b[|b| - 1];
      ChildSitemapsAppend(env, base, depth, a, init);
    }
  }

  lemma ChildSitemapsOfOne(env: Env, base: Url, depth: nat, loc: Option<string>)
    ensures ChildSitemaps(env, base, depth, [loc]) == ChildUrls(env, base, depth, loc)
  {
    assert [loc][..0] == [];
  }

  /** A child whose fetch or resolution raises is skipped and leaves its siblings' results as
      they are. */
  lemma ChildFailureIsSkipped(env: Env, base: Url, depth: nat, a: seq<Option<string>>, u: Url, b: seq<Option<string>>)
    requires u !in env.web || ParseXmlSitemap(env, base, depth, u, env.web[u].doc.xml).None?
    ensures ChildSitemaps(env, base, depth, a + [Some(u)] + b)
         == ChildSitemaps(env, base, depth, a) + ChildSitemaps(env, base, depth, b)
  {
    var one := [Some(u)];
    ChildSitemapsOfOne(env, base, depth, Some(u));
    ChildSitemapsAppend(env, base, depth, a + one, b);
    ChildSitemapsAppend(env, base, depth, a, one);
  }

  /** `u` can be fetched and holds a URL set. */
  predicate IsUrlSetAt(env: Env, loc: Option<string>)
  {
    loc.Some? && loc.value != "" && loc.value in env.web && env.web[loc.value].doc.xml.UrlSet?
  }

  /** The leaf URLs of every child of an index, concatenated in document order. */
  function IndexLeaves(env: Env, base: Url, sitemaps: seq<Option<string>>): seq<Url>
    requires forall i :: 0 <= i < |sitemaps| ==> IsUrlSetAt(env, sitemaps[i])
  {
    if sitemaps == [] then []
    else
      var last := sitemaps[|sitemaps| - 1];
      assert IsUrlSetAt(env, last);
      assert forall i :: 0 <= i < |sitemaps| - 1 ==> sitemaps[..|sitemaps| - 1][i] == sitemaps[i];
      IndexLeaves(env, base, sitemaps[..|sitemaps| - 1]) + LeafUrls(base, env.web[last.value].doc.xml.locs)
  }

  /** An index whose children are all fetchable URL sets resolves to the concatenation of their
      on-site leaf URLs, in document order. */
  lemma {:induction false} IndexOfUrlSets(env: Env, base: Url, depth: nat, url: Url, sitemaps: seq<Option<string>>)
    requires depth >= 2
    requires forall i :: 0 <= i < |sitemaps| ==> IsUrlSetAt(env, sitemaps[i])
    ensures ParseXmlSitemap(env, base, depth, url, SitemapIndex(sitemaps)) == Some(IndexLeaves(env, base, sitemaps))
  {
    ChildSitemapsOfUrlSets(env, base, depth - 1, sitemaps);
  }

  lemma {:induction false} ChildSitemapsOfUrlSets(env: Env, base: Url, depth: nat, sitemaps: seq<Option<string>>)
    requires depth >= 1
    requires forall i :: 0 <= i < |sitemaps| ==> IsUrlSetAt(env, sitemaps[i])
    ensures ChildSitemaps(env, base, depth, sitemaps) == IndexLeaves(env, base, sitemaps)
    decreases |sitemaps|
  {
    if sitemaps != [] {
      var init := sitemaps[..|sitemaps| - 1];
      assert forall i :: 0 <= i < |init| ==> init[i] == sitemaps[i];
      ChildSitemapsOfUrlSets(env, base, depth, init);
      var last := sitemaps[|sitemaps| - 1];
      assert IsUrlSetAt(env, last);
      var locs := env.web[last.value].doc.xml.locs;
      assert ParseXmlSitemap(env, base, depth, last.value, env.web[last.value].doc.xml) == Some(LeafUrls(base, locs));
      assert ChildUrls(env, base, depth, last) == LeafUrls(base, locs);
    }
  }
}
