/**
 * getRepoName (js/main.js:154-163): turns the URL fragment or a pasted
 * GitHub URL into the `owner/name` text that is fetched. Each step is a
 * String.prototype call, so the two GitHub prefixes are removed wherever
 * they first occur, not only at the start.
 */
module RepoName {
  import opened Wrappers
  import opened JsStrings

  const HttpsPrefix: string := "https://github.com/"
  const HttpPrefix: string := "http://github.com/"
  const GitSuffix: string := ".git"

  /**
   * The text before the first '?' (the whole text when there is none): a
   * prefix of `s` without '?', followed in `s` by a '?' unless it is all of `s`.
   */
  function BeforeQuery(s: string): (r: string)
    ensures r <= s && '?' !in r
    ensures r == s || s[|r|] == '?'
  {
    ContainsChar(s, '?');
    if Contains(s, "?") then
      var i := IndexOf(s, "?").value;
      OccursAtChar(s, '?', i);
      forall j | 0 <= j < i ensures s[j] != '?' {
        OccursAtChar(s, '?', j);
      }
      Split(s, '?')[0]
    else s
  }

  /** The value getRepoName computes, step by step as the source does. */
  function RepoNameOf(s: string): string
  {
    StripSuffix(RemoveFirst(RemoveFirst(BeforeQuery(s), HttpsPrefix), HttpPrefix), GitSuffix)
  }

  /** getRepoName: each reassignment of `repo` in the source is one statement here. */
  method GetRepoName(str: string) returns (repo: string)
    ensures repo == RepoNameOf(str)
    ensures '?' !in repo
  {
    repo := str;
    if Contains(str, "?") {
      repo := Split(str, '?')[0];
    }
    repo := RemoveFirst(repo, HttpsPrefix);
    repo := RemoveFirst(repo, HttpPrefix);
    repo := StripSuffix(repo, GitSuffix);
    NoQueryInRepoName(str);
  }

  /** The result never contains '?': removing text or a suffix cannot bring one back. */
  lemma NoQueryInRepoName(s: string)
    ensures '?' !in RepoNameOf(s)
  {
    var a := BeforeQuery(s);
    var b := RemoveFirst(a, HttpsPrefix);
    var c := RemoveFirst(b, HttpPrefix);
    RemoveFirstKeepsCharacters(a, HttpsPrefix);
    RemoveFirstKeepsCharacters(b, HttpPrefix);
    assert multiset(c)['?'] <= multiset(b)['?'] <= multiset(a)['?'] == 0;
    var d := StripSuffix(c, GitSuffix);
    assert d <= c;
  }

  /**
   * A text with no '?', neither GitHub prefix anywhere and no trailing
   * ".git" comes back unchanged.
   */
  lemma RepoNameUnchanged(s: string)
    requires '?' !in s
    requires !Contains(s, HttpsPrefix) && !Contains(s, HttpPrefix)
    requires !EndsWith(s, GitSuffix)
    ensures RepoNameOf(s) == s
  {
    ContainsChar(s, '?');
  }

  /**
   * getRepoName is idempotent on an input whose result is left with
   * neither prefix and no trailing ".git".
   */
  lemma RepoNameIdempotentWhenClean(s: string)
    requires !Contains(RepoNameOf(s), HttpsPrefix) && !Contains(RepoNameOf(s), HttpPrefix)
    requires !EndsWith(RepoNameOf(s), GitSuffix)
    ensures RepoNameOf(RepoNameOf(s)) == RepoNameOf(s)
  {
    NoQueryInRepoName(s);
    RepoNameUnchanged(RepoNameOf(s));
  }

  /** It is not idempotent in general: only one trailing ".git" goes per call. */
  lemma RepoNameNotIdempotent(r: string)
    requires '?' !in r && !Contains(r, HttpsPrefix) && !Contains(r, HttpPrefix)
    ensures RepoNameOf(r + GitSuffix + GitSuffix) == r + GitSuffix
    ensures RepoNameOf(RepoNameOf(r + GitSuffix + GitSuffix)) == r
  {
    StripsOneGit(r, GitSuffix);
    StripsOneGit(r, "");
    assert r + "" == r;
  }

  /** Of a clean text followed by `tail` and ".git", exactly the last ".git" goes. */
  lemma StripsOneGit(r: string, tail: string)
    requires '?' !in r && !Contains(r, HttpsPrefix) && !Contains(r, HttpPrefix)
    requires '?' !in tail && '/' !in tail
    ensures RepoNameOf(r + tail + GitSuffix) == r + tail
  {
    assert r + tail + GitSuffix == r + (tail + GitSuffix);
    CleanTextStep(r, tail + GitSuffix);
    assert (r + tail + GitSuffix)[..|r + tail|] == r + tail;
  }

  /**
   * Appending text without '?' or '/' to a text without '?' and without
   * either prefix leaves only the trailing-".git" step with any effect.
   */
  lemma CleanTextStep(r: string, tail: string)
    requires '?' !in r && !Contains(r, HttpsPrefix) && !Contains(r, HttpPrefix)
    requires '?' !in tail && '/' !in tail
    ensures RepoNameOf(r + tail) == StripSuffix(r + tail, GitSuffix)
  {
    var s := r + tail;
    assert BeforeQuery(s) == s by {
      assert '?' !in s;
      ContainsChar(s, '?');
    }
    NoOccurrenceAcross(r, tail, HttpsPrefix);
    NoOccurrenceAcross(r, tail, HttpPrefix);
  }

  /**
   * An occurrence of `pat` in `x + y` lies inside `x` when the last
   * character of `pat` does not appear in `y`.
   */
  lemma NoOccurrenceAcross(x: string, y: string, pat: string)
    requires |pat| > 0 && pat[|pat| - 1] !in y
    requires !Contains(x, pat)
    ensures !Contains(x + y, pat)
  {
    forall i: nat | i + |pat| <= |x| + |y| ensures !OccursAt(x + y, pat, i) {
      var last := i + |pat| - 1;
      if last >= |x| {
        assert (x + y)[i..i + |pat|][|pat| - 1] == y[last - |x|];
      } else {
        assert (x + y)[i..i + |pat|] == x[i..i + |pat|];
        assert !OccursAt(x, pat, i);
      }
    }
  }

  /** The text before the first '?' of `x?query` is `x` when `x` has no '?'. */
  lemma BeforeQueryOfSplit(x: string, query: string)
    requires '?' !in x
    ensures BeforeQuery(x + ['?'] + query) == x
  {
    SplitAfterFirst(x, '?', query);
    ContainsChar(x + ['?'] + query, '?');
  }

  /** Removing the first occurrence of `pat` from `pat + rest` leaves `rest`. */
  lemma RemoveFirstLeading(pat: string, rest: string)
    ensures RemoveFirst(pat + rest, pat) == rest
  {
    var s := pat + rest;
    assert s[..|pat|] == pat;
    assert IndexOf(s, pat) == Some(0);
    assert s[|pat|..] == rest;
  }

  /**
   * A clone URL of the form https://github.com/<r>.git?<query> yields `r`
   * when `r` has no '?' and no "http://github.com/" inside it.
   */
  lemma GithubUrlYieldsRepo(r: string, query: string)
    requires '?' !in r && !Contains(r, HttpPrefix)
    ensures RepoNameOf(HttpsPrefix + r + GitSuffix + "?" + query) == r
  {
    UrlBeforeQuery(r, query);
    UrlLosesHttpsPrefix(r);
    NoOccurrenceAcross(r, GitSuffix, HttpPrefix);
    assert (r + GitSuffix)[..|r|] == r;
  }

  lemma UrlBeforeQuery(r: string, query: string)
    requires '?' !in r
    ensures BeforeQuery(HttpsPrefix + r + GitSuffix + "?" + query) == HttpsPrefix + r + GitSuffix
  {
    var x := HttpsPrefix + r + GitSuffix;
    assert HttpsPrefix + r + GitSuffix + "?" + query == x + ['?'] + query;
    BeforeQueryOfSplit(x, query);
  }

  lemma UrlLosesHttpsPrefix(r: string)
    ensures RemoveFirst(HttpsPrefix + r + GitSuffix, HttpsPrefix) == r + GitSuffix
  {
    assert HttpsPrefix + r + GitSuffix == HttpsPrefix + (r + GitSuffix);
    RemoveFirstLeading(HttpsPrefix, r + GitSuffix);
  }

  /** The clone URL https://github.com/owner/name.git?x=1 gives owner/name. */
  lemma CloneUrlExample()
    ensures RepoNameOf("https://github.com/owner/name.git?x=1") == "owner/name"
  {
    assert "https://github.com/owner/name.git?x=1" == HttpsPrefix + "owner/name" + GitSuffix + "?" + "x=1";
    GithubUrlYieldsRepo("owner/name", "x=1");
  }

  /** a/b.git.git gives a/b.git, and a second application gives a/b. */
  lemma NotIdempotentExample()
    ensures RepoNameOf("a/b.git.git") == "a/b.git"
    ensures RepoNameOf(RepoNameOf("a/b.git.git")) == "a/b"
  {
    assert "a/b.git.git" == "a/b" + GitSuffix + GitSuffix;
    RepoNameNotIdempotent("a/b");
  }
}
