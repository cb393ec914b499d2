/** File naming of saved articles: `sanitize_filename` and the slug-or-title choice of
    `save_to_markdown` (scraper.py). */
module Filenames {
  import opened Text

  /** Names longer than this are cut (scraper.py:108-109). */
  const MaxFilenameLength: nat := 100

  /** The nine characters that `sanitize_filename` deletes: backslash, slash, star, question
      mark, colon, double quote, less-than, greater-than and bar. */
  predicate IsForbidden(c: char)
  {
    c in "\\/*?:\"<>|"
  }

  /** A name that `SanitizeFilename` leaves as it is. */
  predicate IsCleanName(s: string)
  {
    |s| <= MaxFilenameLength && forall c :: c in s ==> !IsForbidden(c) && c != ' '
  }

  /** The regular-expression substitution that deletes every forbidden character. */
  function StripForbidden(s: string): (r: string)
    ensures |r| <= |s|
    ensures forall c :: c in r ==> c in s && !IsForbidden(c)
    ensures (forall c :: c in s ==> !IsForbidden(c)) ==> r == s
    ensures IsSubsequence(r, s)
    ensures forall c :: !IsForbidden(c) ==> multiset(r)[c] == multiset(s)[c]
  {
    if s == [] then []
    else
      var init := s[..|s| - 1];
      var last := s[|s| - 1];
      assert s == init + [last];
      var rest := StripForbidden(init);
      var r := rest + (if IsForbidden(last) then [] else [last]);
      assert IsSubsequence(r, s) by {
        assert s[..|s| - 1] == init;
        if IsForbidden(last) {
          assert r == rest;
          if rest != [] {
            assert rest[|rest| - 1] in rest;
            assert rest[|rest| - 1] != last;
          }
        } else {
          assert r[..|r| - 1] == rest && r[|r| - 1] == last;
        }
      }
      assert multiset(s) == multiset(init) + multiset{last};
      assert multiset(r) == multiset(rest) + if IsForbidden(last) then multiset{} else multiset{last};
      r
  }

  /** `s.replace(' ', '_')`. */
  function SpacesToUnderscores(s: string): (r: string)
    ensures |r| == |s|
    ensures forall i :: 0 <= i < |s| && s[i] != ' ' ==> r[i] == s[i]
    ensures forall i :: 0 <= i < |s| && s[i] == ' ' ==> r[i] == '_'
    ensures (forall c :: c in s ==> !IsForbidden(c)) ==> forall c :: c in r ==> !IsForbidden(c) && c != ' '
  {
    var r := seq(|s|, i requires 0 <= i < |s| => if s[i] == ' ' then '_' else s[i]);
    assert forall c :: c in r ==> c == '_' || (c in s && c != ' ') by {
      forall c | c in r ensures c == '_' || (c in s && c != ' ') {
        var i :| 0 <= i < |r| && r[i] == c;
        assert s[i] in s;
      }
    }
    r
  }

  /** `sanitize_filename(title)`: delete forbidden characters, turn spaces into underscores,
      keep at most the first 100 characters. */
  function SanitizeFilename(title: string): (r: string)
    ensures IsCleanName(r)
    ensures r <= SpacesToUnderscores(StripForbidden(title))
    ensures |r| == if |StripForbidden(title)| > MaxFilenameLength then MaxFilenameLength else |StripForbidden(title)|
  {
    var stripped := StripForbidden(title);
    var filename := SpacesToUnderscores(stripped);
    if |filename| > MaxFilenameLength then filename[..MaxFilenameLength] else filename
  }

  /** A name that is already clean is its own sanitized form. */
  lemma SanitizeKeepsCleanName(s: string)
    requires IsCleanName(s)
    ensures SanitizeFilename(s) == s
  {
    assert StripForbidden(s) == s;
    assert forall i :: 0 <= i < |s| ==> s[i] in s;
    assert SpacesToUnderscores(s) == s;
  }

  /** Sanitizing twice gives the same result as sanitizing once. */
  lemma SanitizeIdempotent(title: string)
    ensures SanitizeFilename(SanitizeFilename(title)) == SanitizeFilename(title)
  {
    SanitizeKeepsCleanName(SanitizeFilename(title));
  }

  /** The prefix of `s` left by `str.rstrip('/')`. */
  function TrimTrailingSlashes(s: string): (r: string)
    ensures r <= s
    ensures r == [] || r[|r| - 1] != '/'
    ensures forall i :: |r| <= i < |s| ==> s[i] == '/'
  {
    if s != [] && s[|s| - 1] == '/' then TrimTrailingSlashes(s[..|s| - 1]) else s
  }

  /** The suffix of `s` left by `str.lstrip('/')`. */
  function TrimLeadingSlashes(s: string): (r: string)
    ensures |r| <= |s| && r == s[|s| - |r|..]
    ensures r == [] || r[0] != '/'
    ensures forall i :: 0 <= i < |s| - |r| ==> s[i] == '/'
  {
    if s != [] && s[0] == '/' then TrimLeadingSlashes(s[1..]) else s
  }

  /** `path.strip('/')`. */
  function StripSlashes(path: string): string
  {
    TrimLeadingSlashes(TrimTrailingSlashes(path))
  }

  /** The last element of `s.split('/')`: everything after the last slash. */
  function LastSegment(s: string): (r: string)
    ensures '/' !in r
    ensures |r| <= |s| && r == s[|s| - |r|..]
    ensures |r| == |s| || s[|s| - |r| - 1] == '/'
  {
    if s == [] || s[|s| - 1] == '/' then []
    else LastSegment(s[..|s| - 1]) + [s[|s| - 1]]
  }

  /** The slug of a URL path: `path.strip('/').split('/')[-1]` (the split list is never
      empty, so the `'index'` default of scraper.py:126 is never taken). */
  function Slug(path: string): string
  {
    LastSegment(StripSlashes(path))
  }

  /** The stem of the saved file's name: the sanitized slug, or the sanitized title when the
      slug is empty or `index`. */
  function FileStem(path: string, title: string): (r: string)
    ensures IsCleanName(r)
  {
    var slug := Slug(path);
    if slug == "index" || slug == "" then SanitizeFilename(title) else SanitizeFilename(slug)
  }

  /** A segment with no slash is its own last segment. */
  lemma {:induction false} LastSegmentOfSegment(seg: string)
    requires '/' !in seg
    ensures LastSegment(seg) == seg
    decreases |seg|
  {
    if seg != [] {
      var init := seg[..|seg| - 1];
      assert seg == init + [seg[|seg| - 1]];
      assert '/' !in init;
      LastSegmentOfSegment(init);
    }
  }

  /** Whatever precedes the last slash does not matter to the last segment. */
  lemma {:induction false} LastSegmentAfterSlash(u: string, seg: string)
    requires '/' !in seg
    ensures LastSegment(u + "/" + seg) == seg
    decreases |seg|
  {
    var w := u + "/" + seg;
    if seg == [] {
      assert w[|w| - 1] == '/';
    } else {
      var init := seg[..|seg| - 1];
      var last := seg[|seg| - 1];
      assert seg == init + [last];
      assert '/' !in init;
      assert w[|w| - 1] == last;
      assert w[..|w| - 1] == u + "/" + init;
      LastSegmentAfterSlash(u, init);
      assert LastSegment(w) == LastSegment(u + "/" + init) + [last];
    }
  }

  /** Stripping leading slashes never reaches into a non-empty final segment. */
  lemma {:induction false} LastSegmentAfterLeadingTrim(dir: string, seg: string)
    requires seg != "" && '/' !in seg
    ensures LastSegment(TrimLeadingSlashes(dir + "/" + seg)) == seg
    decreases |dir|
  {
    var w := dir + "/" + seg;
    if dir == [] {
      assert w == ['/'] + seg;
      assert w[1..] == seg;
      assert seg[0] != '/' by { assert seg[0] in seg; }
      assert TrimLeadingSlashes(seg) == seg;
      assert TrimLeadingSlashes(w) == TrimLeadingSlashes(seg);
      LastSegmentOfSegment(seg);
    } else if dir[0] == '/' {
      assert w[0] == '/';
      assert w[1..] == dir[1..] + "/" + seg;
      assert TrimLeadingSlashes(w) == TrimLeadingSlashes(dir[1..] + "/" + seg);
      LastSegmentAfterLeadingTrim(dir[1..], seg);
    } else {
      assert w[0] == dir[0];
      assert TrimLeadingSlashes(w) == w;
      LastSegmentAfterSlash(dir, seg);
    }
  }

  /** The slug of a path `<dir>/<seg>/` is its final segment `seg`. */
  lemma SlugOfArticlePath(dir: string, seg: string)
    requires seg != "" && '/' !in seg
    ensures Slug(dir + "/" + seg + "/") == seg
  {
    var path := dir + "/" + seg + "/";
    var body := dir + "/" + seg;
    assert path[..|path| - 1] == body;
    assert seg[|seg| - 1] in seg;
    assert body[|body| - 1] == seg[|seg| - 1];
    assert TrimTrailingSlashes(path) == TrimTrailingSlashes(body) == body;
    LastSegmentAfterLeadingTrim(dir, seg);
  }

  /** The file of an article at `<dir>/<seg>/` is named after `seg` when `seg` is a real slug. */
  lemma FileStemOfArticlePath(dir: string, seg: string, title: string)
    requires seg != "" && seg != "index" && '/' !in seg
    ensures FileStem(dir + "/" + seg + "/", title) == SanitizeFilename(seg)
  {
    SlugOfArticlePath(dir, seg);
  }

  /** A page at `<dir>/index/` is named after its title. */
  lemma FileStemOfIndexPath(dir: string, title: string)
    ensures FileStem(dir + "/index/", title) == SanitizeFilename(title)
  {
    assert dir + "/index/" == dir + "/" + "index" + "/";
    SlugOfArticlePath(dir, "index");
  }

  /** A path made of slashes only, such as the site root `/` or the empty path, has an empty
      slug, so the page is named after its title. */
  lemma FileStemOfRootPath(path: string, title: string)
    requires forall i :: 0 <= i < |path| ==> path[i] == '/'
    ensures FileStem(path, title) == SanitizeFilename(title)
  {
    assert TrimTrailingSlashes(path) == [];
  }
}
