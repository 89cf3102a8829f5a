/**
 * The call-sign prefix rule both revisions apply after their suffix rule:
 * `re.sub(r'^\w+/', "", call)`, which deletes a leading run of word
 * characters together with the `/` that ends it (a `DL/` style prefix).
 */
module Callsign {
  import opened Text

  /** Deletes a leading `\w+/`, if the call starts with one. */
  function StripDxPrefix(s: string): (r: string)
    ensures r == s || (exists n :: 1 <= n < |s| && AllWordChars(s[..n]) && s[n] == '/' && r == s[n + 1..])
    ensures |r| <= |s|
  {
    var n := WordRunLength(s);
    if 1 <= n < |s| && s[n] == '/' then s[n + 1..] else s
  }

  /** A leading run of word characters is measured up to the first character that is not one. */
  lemma WordRunOf(p: string, c: char, rest: string)
    requires AllWordChars(p) && !IsWordChar(c)
    ensures WordRunLength(p + [c] + rest) == |p|
  {
    var s := p + [c] + rest;
    var n := WordRunLength(s);
    assert s[|p|] == c && s[..|p|] == p;
    assert n <= |p| by { assert !AllWordChars(s[..|p| + 1]) by { assert c in s[..|p| + 1]; } }
  }

  /** A prefix of word characters and its `/` are removed. */
  lemma StripPrefixOf(p: string, rest: string)
    requires p != "" && AllWordChars(p)
    ensures StripDxPrefix(p + "/" + rest) == rest
  {
    WordRunOf(p, '/', rest);
    assert (p + "/" + rest)[|p| + 1..] == rest;
  }

  /** Without a `/` there is nothing to strip. */
  lemma StripNoSlash(s: string)
    requires '/' !in s
    ensures StripDxPrefix(s) == s
  {
  }
}
