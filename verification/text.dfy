/** String and ordered-set helpers standing for the Python built-ins the scraper uses:
    `sub in s`, `s.endswith(t)`, `s.lower()`, and `set.update` / `list(set(..))`. */
module Text {

  /** `prefix` is a prefix of `s` (Python `s.startswith(prefix)`). */
  predicate StartsWith(s: string, prefix: string)
  {
    |prefix| <= |s| && s[..|prefix|] == prefix
  }

  /** Python `s.endswith(suffix)`. */
  predicate EndsWith(s: string, suffix: string)
  {
    |suffix| <= |s| && s[|s| - |suffix|..] == suffix
  }

  /** Python `sub in s` on strings: `sub` occurs somewhere in `s` (the empty string occurs everywhere). */
  predicate Contains(s: string, sub: string)
    decreases |s|
  {
    StartsWith(s, sub) || (|s| > 0 && Contains(s[1..], sub))
  }

  /** Python `str.lower()` restricted to ASCII letters. */
  function LowerChar(c: char): char
  {
    if 'A' <= c <= 'Z' then (c as int + 32) as char else c
  }

  function Lower(s: string): string
  {
    seq(|s|, i requires 0 <= i < |s| => LowerChar(s[i]))
  }

  /** Lower-casing twice changes nothing more than lower-casing once. */
  lemma LowerIdempotent(s: string)
    ensures Lower(Lower(s)) == Lower(s)
  {
    assert forall i :: 0 <= i < |s| ==> Lower(Lower(s))[i] == LowerChar(LowerChar(s[i])) == Lower(s)[i];
  }

  /** No element occurs twice: the shape of a Python set turned into a list. */
  predicate NoDups<T(==)>(s: seq<T>)
  {
    forall i, j :: 0 <= i < j < |s| ==> s[i] != s[j]
  }

  /** `a` is a subsequence of `b`: the elements of `a` occur in `b` in the same order. */
  predicate IsSubsequence<T(==)>(a: seq<T>, b: seq<T>)
    decreases |b|
  {
    if a == [] then true
    else if b == [] then false
    else if a[|a| - 1] == b[|b| - 1] then IsSubsequence(a[..|a| - 1], b[..|b| - 1])
    else IsSubsequence(a, b[..|b| - 1])
  }

  /** Python `acc.update(xs)` on a set, with the set kept as a duplicate-free list in insertion
      order: each element of `xs` not yet present is appended. */
  function AddAll(acc: seq<string>, xs: seq<string>): (r: seq<string>)
    ensures acc <= r
    ensures NoDups(acc) ==> NoDups(r)
    ensures forall x :: x in r <==> x in acc || x in xs
    decreases |xs|
  {
    if xs == [] then acc
    else AddAll(if xs[0] in acc then acc else acc + [xs[0]], xs[1..])
  }

  /** Python `list(set(xs))`, with set order taken to be insertion order. */
  function Dedup(xs: seq<string>): (r: seq<string>)
    ensures NoDups(r)
    ensures forall x :: x in r <==> x in xs
  {
    AddAll([], xs)
  }
}
