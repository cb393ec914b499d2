/** The fallback pattern of `parse_html_sitemap` (scraper.py:303-304): `re.search` of
    `<base_url>[^/]+/[^/]+/` in an href. The base URL is pasted into the pattern as it is, so
    each `.` in it is the wildcard that matches any character except a newline. The model
    covers base URLs whose only regular-expression metacharacter is `.`, which is the case for
    scheme, host and path characters in practice. */
module ArticlePattern {
  import opened Text

  /** One pattern character against one href character: a wildcard `.` unless the base URL is
      taken literally. */
  predicate CharMatches(p: char, c: char, literal: bool)
  {
    if p == '.' && !literal then c != '\n' else c == p
  }

  /** The base-URL part of the pattern matches `h` from position `i`. */
  predicate BaseMatchesAt(base: string, h: string, i: int, literal: bool)
  {
    0 <= i && i + |base| <= |h| && forall j :: 0 <= j < |base| ==> CharMatches(base[j], h[i + j], literal)
  }

  /** No slash in `h[lo..hi]`. */
  predicate NoSlashBetween(h: string, lo: int, hi: int)
    requires 0 <= lo <= hi <= |h|
  {
    forall m :: lo <= m < hi ==> h[m] != '/'
  }

  /** `[^/]+/[^/]+/` matches `h` from position `i`: two non-empty slash-free segments, each
      closed by a slash. */
  predicate TwoSegmentsAt(h: string, i: int)
  {
    exists j, k :: 0 <= i < j && j + 1 < k < |h| && h[j] == '/' && h[k] == '/'
                   && NoSlashBetween(h, i, j) && NoSlashBetween(h, j + 1, k)
  }

  /** The whole pattern matches `h` from position `i`. */
  predicate MatchesAt(base: string, h: string, i: int, literal: bool)
  {
    BaseMatchesAt(base, h, i, literal) && TwoSegmentsAt(h, i + |base|)
  }

  /** `re.search(base_url + '[^/]+/[^/]+/', h)` as scraper.py:303 writes it, with the base URL
      unescaped. */
  predicate UnescapedMatch(base: string, h: string)
  {
    exists i :: 0 <= i <= |h| && MatchesAt(base, h, i, false)
  }

  /** The same search with the base URL escaped, `re.escape(base_url) + '[^/]+/[^/]+/'`. */
  predicate EscapedMatch(base: string, h: string)
  {
    exists i :: 0 <= i <= |h| && MatchesAt(base, h, i, true)
  }

  /** `sub` occurs in `s` at position `i`. */
  predicate OccursAt(s: string, sub: string, i: int)
  {
    0 <= i && i + |sub| <= |s| && s[i..i + |sub|] == sub
  }

  /** `sub` occurring at position `i` of `s` makes `sub in s` true. */
  lemma {:induction false} ContainsAt(s: string, sub: string, i: nat)
    requires OccursAt(s, sub, i)
    ensures Contains(s, sub)
    decreases i
  {
    if i > 0 {
      assert s[1..][i - 1..i - 1 + |sub|] == s[i..i + |sub|];
      ContainsAt(s[1..], sub, i - 1);
    }
  }

  /** `sub in s` only when `sub` occurs at some position of `s`. */
  lemma {:induction false} ContainsSomewhere(s: string, sub: string) returns (i: nat)
    requires Contains(s, sub)
    ensures OccursAt(s, sub, i)
    decreases |s|
  {
    if StartsWith(s, sub) {
      i := 0;
      assert s[0..|sub|] == s[..|sub|];
    } else {
      var k := ContainsSomewhere(s[1..], sub);
      assert s[k + 1..k + 1 + |sub|] == s[1..][k..k + |sub|];
      i := k + 1;
    }
  }

  /** With the base URL escaped, every href the pattern accepts contains the base URL. */
  lemma EscapedMatchIsOnSite(base: string, h: string)
    requires EscapedMatch(base, h)
    ensures Contains(h, base)
  {
    var i :| 0 <= i <= |h| && MatchesAt(base, h, i, true);
    assert OccursAt(h, base, i) by {
      forall j | 0 <= j < |base| ensures h[i..i + |base|][j] == base[j] {
        assert CharMatches(base[j], h[i + j], true);
      }
    }
    ContainsAt(h, base, i);
  }

  /** Escaping only narrows the pattern: whatever the escaped pattern accepts, the unescaped
      one accepts too. */
  lemma EscapedMatchIsUnescapedMatch(base: string, h: string)
    requires EscapedMatch(base, h)
    ensures UnescapedMatch(base, h)
  {
    var i :| 0 <= i <= |h| && MatchesAt(base, h, i, true);
    assert BaseMatchesAt(base, h, i, false) by {
      forall j | 0 <= j < |base| ensures CharMatches(base[j], h[i + j], false) {
        assert CharMatches(base[j], h[i + j], true);
      }
    }
    assert MatchesAt(base, h, i, false);
  }

  const ExampleBase: string := "https://www.example.com/"

  /** A look-alike host: `www-example.com` in place of `www.example.com`. */
  const LookAlikeHref: string := "https://www-example.com/a/b/"

  /** The unescaped pattern accepts the look-alike href, which does not contain the base URL;
      the escaped pattern rejects it. */
  lemma LookAlikeMatchesUnescaped()
    ensures UnescapedMatch(ExampleBase, LookAlikeHref)
    ensures !Contains(LookAlikeHref, ExampleBase)
    ensures !EscapedMatch(ExampleBase, LookAlikeHref)
  {
    var h := LookAlikeHref;
    var base := ExampleBase;
    assert |base| == 24 && |h| == 28;
    assert BaseMatchesAt(base, h, 0, false);
    assert h[24] != '/' && h[25] == '/' && h[26] != '/' && h[27] == '/';
    assert NoSlashBetween(h, 24, 25) && NoSlashBetween(h, 26, 27);
    assert TwoSegmentsAt(h, 24);
    assert MatchesAt(base, h, 0, false);
    NotContainsLookAlike();
    if EscapedMatch(base, h) {
      EscapedMatchIsOnSite(base, h);
      assert false;
    }
  }

  /** `sub` is not in `s` when it occurs at no position of `s`. */
  lemma NotContainsWhenNowhere(s: string, sub: string)
    requires forall i :: 0 <= i <= |s| - |sub| ==> !OccursAt(s, sub, i)
    ensures !Contains(s, sub)
  {
    if Contains(s, sub) {
      var i := ContainsSomewhere(s, sub);
      assert false;
    }
  }

  /** The look-alike href differs from the base URL at index 11 (`-` for `.`) and cannot hold
      it at a later position, where its first character `h` would have to appear. */
  lemma NotContainsLookAlike()
    ensures !Contains(LookAlikeHref, ExampleBase)
  {
    forall i | 0 <= i <= |LookAlikeHref| - |ExampleBase| ensures !OccursAt(LookAlikeHref, ExampleBase, i) {
      var k := if i == 0 then 11 else 0;
      assert LookAlikeHref[i..i + |ExampleBase|][k] == LookAlikeHref[i + k];
    }
    NotContainsWhenNowhere(LookAlikeHref, ExampleBase);
  }
}
