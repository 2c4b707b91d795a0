/**
 * The decisions of fetchData (js/main.js:24-43): the repository typed in
 * the search box is stripped of spaces, the URL fragment is rewritten
 * when it names another repository, and the request is made only when
 * the text looks like `owner/name`.
 */
module Validation {
  import opened JsStrings
  import opened RepoName

  /** A character of `[-_\w]`: a letter, digit, '_' or '-'. */
  predicate WordChar(c: char)
  {
    ('a' <= c <= 'z') || ('A' <= c <= 'Z') || ('0' <= c <= '9') || c == '_' || c == '-'
  }

  /** A character of `[-_.\w]`: a WordChar or '.'. */
  predicate NameChar(c: char)
  {
    WordChar(c) || c == '.'
  }

  /** Every character of s[a..k] is a WordChar. */
  predicate WordRun(s: string, a: nat, k: nat)
  {
    a <= k <= |s| && forall i :: a <= i < k ==> WordChar(s[i])
  }

  /** Every character of s[k+1..b] is a NameChar. */
  predicate NameRunAfter(s: string, k: nat, b: nat)
  {
    k < b <= |s| && forall i :: k < i < b ==> NameChar(s[i])
  }

  /**
   * The unanchored regular expression `/[-_\w]+\/[-_.\w]+/` matches
   * somewhere in `s`: a non-empty run of WordChars at s[a..k], the '/'
   * at s[k], a non-empty run of NameChars at s[k+1..b].
   */
  ghost predicate RegexMatches(s: string)
  {
    exists a: nat, k: nat, b: nat {:trigger WordRun(s, a, k), NameRunAfter(s, k, b)} ::
      a < k && k + 1 < b && k < |s| && s[k] == '/' && WordRun(s, a, k) && NameRunAfter(s, k, b)
  }

  /** `re.test(repo)` as one look at each '/': a WordChar just before it, a NameChar just after it. */
  predicate RepoPatternTest(s: string)
  {
    exists k :: 1 <= k < |s| - 1 && s[k] == '/' && WordChar(s[k - 1]) && NameChar(s[k + 1])
  }

  /** A '/' between a WordChar and a NameChar is a match of length three. */
  lemma RepoPatternTestImpliesMatch(s: string)
    requires RepoPatternTest(s)
    ensures RegexMatches(s)
  {
    var k :| 1 <= k < |s| - 1 && s[k] == '/' && WordChar(s[k - 1]) && NameChar(s[k + 1]);
    assert WordRun(s, k - 1, k);
    assert NameRunAfter(s, k, k + 2);
  }

  /** Every match has a '/' with a WordChar just before it and a NameChar just after it. */
  lemma MatchImpliesRepoPatternTest(s: string)
    requires RegexMatches(s)
    ensures RepoPatternTest(s)
  {
    var a: nat, k: nat, b: nat :|
      a < k && k + 1 < b && k < |s| && s[k] == '/' && WordRun(s, a, k) && NameRunAfter(s, k, b);
    assert WordChar(s[k - 1]) && NameChar(s[k + 1]);
    assert 1 <= k < |s| - 1;
  }

  /** The one-character test decides the regular expression. */
  lemma RepoPatternTestMatches(s: string)
    ensures RepoPatternTest(s) <==> RegexMatches(s)
  {
    if RepoPatternTest(s) {
      RepoPatternTestImpliesMatch(s);
    }
    if RegexMatches(s) {
      MatchImpliesRepoPatternTest(s);
    }
  }

  /** The message shown for text that is not `owner/name`. */
  const InvalidRepoMessage: string := "Invalid GitHub repository! Format is &lt;username&gt;/&lt;repo&gt;"

  /** The text of the API request around the repository. */
  const ApiPrefix: string := "https://api.github.com/repos/"
  const ApiSuffix: string := "/forks?sort=stargazers&per_page=100"

  /** The GitHub API request fetchAndShow makes for `repo`: its forks, by stars, 100 a page. */
  function ApiUrl(repo: string): string
  {
    ApiPrefix + repo + ApiSuffix
  }

  /** What fetchData decides: the repository, whether the fragment is rewritten, whether to fetch. */
  datatype Decision = Decision(repo: string, push: bool, fetch: bool)

  /**
   * fetchData for the search-box text `input` and the decoded fragment
   * `urlParam`: the fragment is rewritten unless it already names the
   * same non-empty repository, and the request is made exactly when the
   * pattern matches; otherwise the invalid-repository message is shown.
   */
  function Decide(input: string, urlParam: string): (d: Decision)
    ensures ' ' !in d.repo && (' ' !in input ==> d.repo == input)
    ensures d.push <==> RepoNameOf(urlParam) == "" || RepoNameOf(urlParam) != d.repo
    ensures d.fetch <==> RepoPatternTest(d.repo)
  {
    var repo := RemoveAll(input, ' ');
    var urlRepo := RepoNameOf(urlParam);
    Decision(repo, urlRepo == "" || urlRepo != repo, RepoPatternTest(repo))
  }

  /** Text without a '/' never passes the test. */
  lemma NoSlashIsInvalid(s: string)
    requires '/' !in s
    ensures !RepoPatternTest(s)
  {
  }

  /** Search-box text without a '/' is refused, yet the fragment is rewritten when it names nothing. */
  lemma NoSlashRefused(input: string, urlParam: string)
    requires '/' !in input
    ensures !Decide(input, urlParam).fetch
    ensures RepoNameOf(urlParam) == "" ==> Decide(input, urlParam).push
  {
    var repo := RemoveAll(input, ' ');
    RemoveAllKeeps(input, ' ');
    assert multiset(repo)['/'] == multiset(input)['/'] == 0;
    NoSlashIsInvalid(repo);
  }

  /** The empty search box is refused and still pushes the empty fragment. */
  lemma EmptyInputPushed(urlParam: string)
    ensures Decide("", urlParam).repo == ""
    ensures !Decide("", urlParam).fetch && Decide("", urlParam).push
  {
    NoSlashIsInvalid("");
  }

  /** Opening the page with the repository already in the fragment does not push a new entry. */
  lemma SameRepoNotPushed(input: string, urlParam: string)
    requires RepoNameOf(urlParam) == RemoveAll(input, ' ') != ""
    ensures !Decide(input, urlParam).push
  {
  }

  /** Spaces typed around a space-free text are removed. */
  lemma SurroundingSpacesRemoved(repo: string)
    requires ' ' !in repo
    ensures RemoveAll(" " + repo + " ", ' ') == repo
  {
    RemoveAllAppend(" " + repo, " ", ' ');
    RemoveAllAppend(" ", repo, ' ');
  }

  /** `owner/name` made of pattern characters has no space and passes the test. */
  lemma OwnerSlashName(owner: string, name: string)
    requires |owner| > 0 && |name| > 0
    requires forall i :: 0 <= i < |owner| ==> WordChar(owner[i])
    requires forall i :: 0 <= i < |name| ==> NameChar(name[i])
    ensures ' ' !in owner + "/" + name
    ensures RepoPatternTest(owner + "/" + name)
  {
    var repo := owner + "/" + name;
    assert forall i :: 0 <= i < |repo| ==> repo[i] == '/' || NameChar(repo[i]);
    var k := |owner|;
    assert repo[k] == '/' && repo[k - 1] == owner[k - 1] && repo[k + 1] == name[0];
  }

  /**
   * A well-formed `owner/name` is fetched, with any spaces typed around
   * it removed, and a fragment naming another repository is rewritten.
   */
  lemma OwnerNameIsValid(owner: string, name: string, urlParam: string)
    requires |owner| > 0 && |name| > 0
    requires forall i :: 0 <= i < |owner| ==> WordChar(owner[i])
    requires forall i :: 0 <= i < |name| ==> NameChar(name[i])
    requires RepoNameOf(urlParam) != owner + "/" + name
    ensures var d := Decide(" " + (owner + "/" + name) + " ", urlParam);
      d.repo == owner + "/" + name && d.fetch && d.push
  {
    OwnerSlashName(owner, name);
    SurroundingSpacesRemoved(owner + "/" + name);
  }

}
