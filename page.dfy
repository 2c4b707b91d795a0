/**
 * The page itself: the state the handlers of js/main.js change and the
 * handlers as methods over it. The search box, the URL fragment and the
 * history, the footer and the alert, the DataTable's columns, sort
 * column and rows, and the requests sent.
 */
module Page {
  import opened Wrappers
  import opened Js
  import opened RepoName
  import opened Params
  import opened Table
  import opened Fetch
  import opened Validation
  import opened JsStrings

  /**
   * The records after an updateDT that threw at fork `i`: the forks
   * before it are enriched, fork `i` got its `repoLink` and no more, the
   * rest are untouched.
   */
  function ThrownAt(before: seq<Record>, i: nat): (r: seq<Record>)
    requires i < |before| && forall k :: 0 <= k < i ==> !Nullish(Get(before[k], "owner"))
    ensures |r| == |before|
  {
    AllEnriched(before[..i]) + [WithRepoLink(before[i])] + before[i + 1..]
  }

  /** The records after updateDT, whether it completed or threw. */
  function AfterUpdate(before: seq<Record>): seq<Record>
  {
    match FirstNullOwner(before)
    case None => AllEnriched(before)
    case Some(i) => ThrownAt(before, i)
  }

  /**
   * When fork `i` is the first with a null or undefined owner, updateDT
   * leaves the forks before it enriched, fork `i` with its `repoLink`
   * only and the rest untouched, and throws that owner's TypeError.
   */
  lemma ThrowsAt(before: seq<Record>, i: nat)
    requires i < |before| && Nullish(Get(before[i], "owner"))
    requires forall k :: 0 <= k < i ==> !Nullish(Get(before[k], "owner"))
    ensures AfterUpdate(before) == AllEnriched(before[..i]) + [WithRepoLink(before[i])] + before[i + 1..]
    ensures ThrownBy(before) == Some(NullOwnerError(Get(before[i], "owner")))
  {
    FirstNullOwnerAt(before, i);
  }

  /** When every owner can be read, updateDT enriches every fork and throws nothing. */
  lemma CompletesAll(before: seq<Record>)
    requires forall k :: 0 <= k < |before| ==> !Nullish(Get(before[k], "owner"))
    ensures AfterUpdate(before) == AllEnriched(before)
    ensures ThrownBy(before) == None
  {
  }

  /** The error updateDT throws: the TypeError of the first unreadable owner, if any. */
  function ThrownBy(before: seq<Record>): Option<JsError>
  {
    match FirstNullOwner(before)
    case None => None
    case Some(i) => Some(NullOwnerError(Get(before[i], "owner")))
  }

  /**
   * updateDT's in-place work agrees with BuildRows: it throws exactly the
   * error BuildRows reports, and otherwise the rows BuildRows returns are
   * those of the records it leaves behind.
   */
  lemma UpdateAgreesWithBuildRows(before: seq<Record>)
    ensures ThrownBy(before).Some? ==> BuildRows(before) == Failure(ThrownBy(before).value)
    ensures ThrownBy(before).None? ==> BuildRows(before) == Success(DataSet(AfterUpdate(before), ColumnNamesMap))
  {
  }

  /** The alert showMsg writes into the data body. */
  datatype Alert = Alert(alertClass: string, message: string)

  /** `location.hash` after `pushState` to `#repo`: an empty fragment reads as "". */
  function FragmentOf(repo: string): string
  {
    if repo == "" then "" else "#" + repo
  }

  /** `count` copies of `url`. */
  function Repeat(url: string, count: nat): (r: seq<string>)
    ensures |r| == count && forall k :: 0 <= k < count ==> r[k] == url
  {
    seq(count, _ => url)
  }

  /** The requests fetchAndShow sends for `repo` when `made` went before: one per attempt of retryFetch. */
  function Requests(repo: string, attempt: nat -> Response, made: nat): (r: seq<string>)
    ensures 1 <= |r| <= Budget(DefaultRetries)
    ensures forall k :: 0 <= k < |r| ==> r[k] == ApiUrl(repo)
  {
    var fetched := RetryFetch(attempt, made, DefaultRetries);
    Repeat(ApiUrl(repo), fetched.attempts - made)
  }

  /** What fetchAndShow ends with: the rows drawn, or the message shown. */
  datatype Shown = Rows(rows: seq<seq<JsVal>>) | Message(text: string)

  /**
   * fetchAndShow's outcome when request k is answered by attempt(k),
   * `made` requests went before, and an OK response carries `forks`.
   */
  function FetchOutcome(attempt: nat -> Response, made: nat, forks: seq<Record>): Shown
  {
    match RetryFetch(attempt, made, DefaultRetries).result
    case Failure(e) => Message(CatchMessage(e))
    case Success(_) =>
      match BuildRows(forks)
      case Success(rows) => Rows(rows)
      case Failure(e) => Message(CatchMessage(e))
  }

  /**
   * The rate-limit text of js/main.js:197-198 is never what fetchAndShow
   * shows: the errors that reach its catch are retryFetch's exhaustion
   * error and updateDT's TypeError, and neither mentions "Forbidden".
   */
  lemma RateLimitNeverShown(attempt: nat -> Response, made: nat, forks: seq<Record>)
    ensures FetchOutcome(attempt, made, forks) != Message(RateLimitText + ConsoleHint)
  {
    match RetryFetch(attempt, made, DefaultRetries).result
    case Failure(_) =>
      RequestFailedShownAsIs();
    case Success(_) =>
      match FirstNullOwner(forks)
      case None =>
      case Some(i) =>
        var owner := Get(forks[i], "owner");
        NullOwnerShownAsIs(owner);
        assert (ErrorToString(NullOwnerError(owner)) + ConsoleHint)[0] == 'T';
        assert (RateLimitText + ConsoleHint)[0] == 'E';
  }

  /** The records as the loop of updateDT leaves them when it has handled the first `i`. */
  ghost function Progress(before: seq<Record>, i: nat): (r: seq<Record>)
    requires i <= |before| && forall k :: 0 <= k < i ==> !Nullish(Get(before[k], "owner"))
    ensures |r| == |before|
  {
    AllEnriched(before[..i]) + before[i..]
  }

  /** The records from `i` on are still as they came. */
  lemma ProgressAt(before: seq<Record>, i: nat)
    requires i < |before| && forall k :: 0 <= k < i ==> !Nullish(Get(before[k], "owner"))
    ensures Progress(before, i)[i] == before[i]
  {
  }

  /** Replacing the element after a prefix. */
  lemma UpdateMiddle<T>(a: seq<T>, x: T, y: T, b: seq<T>)
    ensures (a + ([x] + b))[|a| := y] == a + [y] + b
  {
  }

  /** A suffix is its first element followed by the rest. */
  lemma SuffixFrom<T>(s: seq<T>, i: nat)
    requires i < |s|
    ensures s[i..] == [s[i]] + s[i + 1..]
  {
  }

  /** Lines 52-53 for a readable owner: one more record enriched. */
  lemma EnrichedNext(before: seq<Record>, i: nat)
    requires i < |before| && forall k :: 0 <= k <= i ==> !Nullish(Get(before[k], "owner"))
    ensures Progress(before, i)[i := WithRepoLink(before[i])][i := Enriched(before[i])] == Progress(before, i + 1)
  {
    assert before[..i + 1][..i] == before[..i];
  }

  /** Line 52 then the throw of line 53: the records and the error updateDT leaves behind. */
  lemma LinkedAt(before: seq<Record>, i: nat)
    requires i < |before| && Nullish(Get(before[i], "owner"))
    requires forall k :: 0 <= k < i ==> !Nullish(Get(before[k], "owner"))
    ensures Progress(before, i)[i := WithRepoLink(before[i])] == AfterUpdate(before)
    ensures ThrownBy(before) == Some(NullOwnerError(Get(before[i], "owner")))
  {
    ThrowsAt(before, i);
    SuffixFrom(before, i);
    UpdateMiddle(AllEnriched(before[..i]), before[i], WithRepoLink(before[i]), before[i + 1..]);
  }

  /**
   * The loop of updateDT (js/main.js:51-55) over the forks as parsed from
   * the API's JSON: each gets `repoLink`, then `ownerName`; reading the
   * avatar of a null or undefined owner throws a TypeError after that
   * fork's `repoLink` was set.
   */
  method EnrichForks(data: array<Record>) returns (thrown: Option<JsError>)
    modifies data
    ensures data[..] == AfterUpdate(old(data[..]))
    ensures thrown == ThrownBy(old(data[..]))
  {
    ghost var before := data[..];
    var i := 0;
    while i < data.Length
      invariant 0 <= i <= data.Length
      invariant forall k :: 0 <= k < i ==> !Nullish(Get(before[k], "owner"))
      invariant data[..] == Progress(before, i)
    {
      var fork := data[i];
      ProgressAt(before, i);
      data[i] := WithRepoLink(fork);
      if Nullish(Get(fork, "owner")) {
        LinkedAt(before, i);
        return Some(NullOwnerError(Get(fork, "owner")));
      }
      data[i] := Enriched(fork);
      EnrichedNext(before, i);
      i := i + 1;
    }
    assert before[..data.Length] == before;
    CompletesAll(before);
    return None;
  }

  /**
   * The fragment fetchData writes reads back as the repository it names,
   * for a repository without '%' escapes.
   */
  lemma FragmentRoundTrip(repo: string, host: Host)
    requires DecodesPlainText(host) && '%' !in repo
    ensures ParamFromHash(FragmentOf(repo), host) == repo
  {
    if repo != "" {
      assert ("#" + repo)[1..] == repo;
    }
  }

  /**
   * Submitting the same text again does not push a second history entry,
   * provided the repository it names reads back as itself: no '%', no
   * '?', no github.com prefix and no ".git" suffix.
   */
  lemma ResubmitNotPushed(input: string, urlParam: string, host: Host)
    requires DecodesPlainText(host)
    requires var repo := Decide(input, urlParam).repo;
      repo != "" && '%' !in repo && '?' !in repo &&
      !Contains(repo, HttpsPrefix) && !Contains(repo, HttpPrefix) && !EndsWith(repo, GitSuffix)
    ensures var d := Decide(input, urlParam);
      var next := Decide(input, ParamFromHash(FragmentOf(d.repo), host));
      next.repo == d.repo && !next.push
  {
    var d := Decide(input, urlParam);
    FragmentRoundTrip(d.repo, host);
    RepoNameUnchanged(d.repo);
  }

  /**
   * A ".git" ending is pushed on every submit: the fragment reads back
   * without it, so it never names the same repository as the search box.
   */
  lemma GitSuffixAlwaysPushed(input: string, urlParam: string, host: Host)
    requires DecodesPlainText(host)
    requires var repo := Decide(input, urlParam).repo;
      '%' !in repo && '?' !in repo && !Contains(repo, HttpsPrefix) && !Contains(repo, HttpPrefix) &&
      EndsWith(repo, GitSuffix)
    ensures var d := Decide(input, urlParam);
      Decide(input, ParamFromHash(FragmentOf(d.repo), host)).push
  {
    var d := Decide(input, urlParam);
    FragmentRoundTrip(d.repo, host);
    assert d.repo + "" == d.repo;
    CleanTextStep(d.repo, "");
    assert |RepoNameOf(d.repo)| < |d.repo|;
  }

  /**
   * On page load the search box gets the repository read from the
   * fragment; fetchData then pushes a history entry exactly when that
   * text holds a space (a decoded "%20").
   */
  lemma LoadPushesOnlyForSpaces(urlParam: string)
    requires RepoNameOf(urlParam) != ""
    ensures Decide(RepoNameOf(urlParam), urlParam).push <==> ' ' in RepoNameOf(urlParam)
  {
    var r := RepoNameOf(urlParam);
    var d := Decide(r, urlParam);
    if ' ' in r {
      assert ' ' !in d.repo;
    }
  }

  class Page {
    /** decodeURIComponent and the string-to-number conversion of the browser. */
    const host: Host
    /** The search box `#q`. */
    var q: string
    /** `location.hash`. */
    var hash: string
    /** The URLs pushed with `history.pushState`. */
    var history: seq<string>
    /** The footer's HTML. */
    var footer: string
    /** The alert in the data body, if one is shown. */
    var banner: Option<Alert>
    /** `window.columnNamesMap`. */
    var columns: seq<Column>
    /** `sortColumnIdx`, the column the table is ordered by, descending. */
    var sortColumn: JsVal
    /** The rows the DataTable draws. */
    var tableRows: seq<seq<JsVal>>
    /** The URLs fetched, in order. */
    var requests: seq<string>

    constructor (host: Host, hash: string, footer: string)
      ensures this.host == host && this.hash == hash && this.footer == footer
      ensures q == "" && history == [] && banner == None
      ensures columns == [] && sortColumn == Undefined && tableRows == [] && requests == []
    {
      this.host := host;
      this.hash := hash;
      this.footer := footer;
      q := "";
      history := [];
      banner := None;
      columns := [];
      sortColumn := Undefined;
      tableRows := [];
      requests := [];
    }

    /** showMsg (js/main.js:205-222): empties the footer and shows `msg` in an alert of the type's class. */
    method ShowMsg(msg: string, msgType: string)
      modifies this
      ensures banner == Some(Alert(AlertClass(msgType), msg)) && footer == ""
      ensures q == old(q) && hash == old(hash) && history == old(history)
      ensures columns == old(columns) && sortColumn == old(sortColumn)
      ensures tableRows == old(tableRows) && requests == old(requests)
    {
      var alertType := "alert-info";
      if msgType == "danger" {
        alertType := "alert-danger";
      }
      footer := "";
      banner := Some(Alert(alertType, msg));
    }

    /**
     * initDT (js/main.js:65-120): sets the columns, orders by `sortIdx`
     * when it passes the check and by 'Stars' otherwise, and starts with
     * an empty table.
     */
    method InitDT(sortIdx: JsVal)
      modifies this
      ensures columns == ColumnNamesMap
      ensures sortColumn == ResolveSortColumn(sortIdx, host)
      ensures tableRows == []
      ensures q == old(q) && hash == old(hash) && history == old(history)
      ensures footer == old(footer) && banner == old(banner) && requests == old(requests)
    {
      columns := ColumnNamesMap;
      StarsColumn();
      var count := |Labels(columns)|;
      if SortIdxAccepted(sortIdx, count, host) {
        sortColumn := sortIdx;
      } else {
        sortColumn := Num(ArrayIndexOf(Labels(columns), "Stars"));
      }
      tableRows := [];
    }

    /**
     * updateDT (js/main.js:45-63): removes the alert, enriches the forks
     * and redraws the table with their rows; when a fork's owner is null
     * or undefined the TypeError leaves the table as it was.
     */
    method UpdateDT(data: array<Record>) returns (thrown: Option<JsError>)
      requires columns == ColumnNamesMap
      modifies this, data
      ensures data[..] == AfterUpdate(old(data[..]))
      ensures thrown == ThrownBy(old(data[..]))
      ensures tableRows == if thrown.None? then DataSet(data[..], columns) else old(tableRows)
      ensures banner == None
      ensures q == old(q) && hash == old(hash) && history == old(history) && footer == old(footer)
      ensures columns == old(columns) && sortColumn == old(sortColumn) && requests == old(requests)
    {
      banner := None;
      thrown := EnrichForks(data);
      if thrown.None? {
        tableRows := DataSet(data[..], columns);
      }
    }

    /**
     * fetchAndShow (js/main.js:184-203): requests the forks with retryFetch,
     * `attempt(k)` being the response to the k-th request of the page and
     * `data` what the OK response's body parses to; hands them to updateDT
     * and shows, in a danger alert, the message of whatever was thrown.
     */
    method FetchAndShow(repo: string, attempt: nat -> Response, data: array<Record>)
      requires columns == ColumnNamesMap
      modifies this, data
      ensures requests == old(requests) + Requests(repo, attempt, |old(requests)|)
      ensures data[..] == if RetryFetch(attempt, |old(requests)|, DefaultRetries).result.Success?
        then AfterUpdate(old(data[..])) else old(data[..])
      ensures var shown := FetchOutcome(attempt, |old(requests)|, old(data[..]));
        shown.Rows? ==> tableRows == shown.rows && banner == None && footer == old(footer)
      ensures var shown := FetchOutcome(attempt, |old(requests)|, old(data[..]));
        shown.Message? ==> banner == Some(Alert(AlertClass("danger"), shown.text)) && footer == "" && tableRows == old(tableRows)
      ensures q == old(q) && hash == old(hash) && history == old(history)
      ensures columns == old(columns) && sortColumn == old(sortColumn)
    {
      var made := |requests|;
      var fetched := RetryFetch(attempt, made, DefaultRetries);
      requests := requests + Requests(repo, attempt, made);
      match fetched.result
      case Failure(e) =>
        ShowMsg(CatchMessage(e), "danger");
      case Success(_) =>
        ghost var before := data[..];
        var thrown := UpdateDT(data);
        UpdateAgreesWithBuildRows(before);
        if thrown.Some? {
          ShowMsg(CatchMessage(thrown.value), "danger");
        }
    }

    /**
     * fetchData (js/main.js:24-43), also the form's submit handler
     * (js/main.js:15-18): takes the search box without spaces, rewrites
     * the fragment unless it already names that repository, then fetches
     * or shows the invalid-repository message.
     */
    method FetchData(attempt: nat -> Response, data: array<Record>)
      requires columns == ColumnNamesMap
      modifies this, data
      ensures var d := Decide(old(q), ParamFromHash(old(hash), host));
        history == old(history) + (if d.push then ["#" + d.repo] else []) &&
        hash == if d.push then FragmentOf(d.repo) else old(hash)
      ensures var d := Decide(old(q), ParamFromHash(old(hash), host));
        !d.fetch ==> (banner == Some(Alert(AlertClass("danger"), InvalidRepoMessage)) && footer == "" &&
          tableRows == old(tableRows) && requests == old(requests) && data[..] == old(data[..]))
      ensures var d := Decide(old(q), ParamFromHash(old(hash), host));
        d.fetch ==> requests == old(requests) + Requests(d.repo, attempt, |old(requests)|)
      ensures var d := Decide(old(q), ParamFromHash(old(hash), host));
        var shown := FetchOutcome(attempt, |old(requests)|, old(data[..]));
        d.fetch ==> ((shown.Rows? ==> tableRows == shown.rows && banner == None) &&
          (shown.Message? ==> banner == Some(Alert(AlertClass("danger"), shown.text)) && footer == ""))
      ensures var d := Decide(old(q), ParamFromHash(old(hash), host));
        var shown := FetchOutcome(attempt, |old(requests)|, old(data[..]));
        d.fetch ==> ((shown.Message? ==> tableRows == old(tableRows)) && (shown.Rows? ==> footer == old(footer)))
      ensures var d := Decide(old(q), ParamFromHash(old(hash), host));
        d.fetch ==> data[..] == (if RetryFetch(attempt, |old(requests)|, DefaultRetries).result.Success?
          then AfterUpdate(old(data[..])) else old(data[..]))
      ensures q == old(q) && columns == old(columns) && sortColumn == old(sortColumn)
    {
      var repo := RemoveAll(q, ' ');
      var param := ParamFromHash(hash, host);
      var urlRepo := GetRepoName(param);
      ghost var d := Decide(q, param);
      assert d.repo == repo && d.push == (urlRepo == "" || urlRepo != repo) && d.fetch == RepoPatternTest(repo);
      if urlRepo == "" || urlRepo != repo {
        history := history + ["#" + repo];
        hash := FragmentOf(repo);
      }
      FetchOrRefuse(repo, attempt, data);
    }

    /**
     * The second half of fetchData (js/main.js:35-42): fetch when `repo`
     * passes the pattern test, otherwise show the invalid-repository message.
     */
    method FetchOrRefuse(repo: string, attempt: nat -> Response, data: array<Record>)
      requires columns == ColumnNamesMap
      modifies this, data
      ensures !RepoPatternTest(repo) ==>
        (banner == Some(Alert(AlertClass("danger"), InvalidRepoMessage)) && footer == "" &&
          tableRows == old(tableRows) && requests == old(requests) && data[..] == old(data[..]))
      ensures RepoPatternTest(repo) ==> requests == old(requests) + Requests(repo, attempt, |old(requests)|)
      ensures var shown := FetchOutcome(attempt, |old(requests)|, old(data[..]));
        RepoPatternTest(repo) ==>
          ((shown.Rows? ==> tableRows == shown.rows && banner == None && footer == old(footer)) &&
          (shown.Message? ==> (banner == Some(Alert(AlertClass("danger"), shown.text)) && footer == "" &&
            tableRows == old(tableRows))))
      ensures RepoPatternTest(repo) ==> data[..] == (if RetryFetch(attempt, |old(requests)|, DefaultRetries).result.Success?
          then AfterUpdate(old(data[..])) else old(data[..]))
      ensures q == old(q) && hash == old(hash) && history == old(history)
      ensures columns == old(columns) && sortColumn == old(sortColumn)
    {
      if RepoPatternTest(repo) {
        FetchAndShow(repo, attempt, data);
      } else {
        ShowMsg(InvalidRepoMessage, "danger");
      }
    }

    /**
     * The load handler (js/main.js:1-13): reads the repository and the
     * sort column from the fragment, sets up the table and, when the
     * fragment names a repository, puts it in the search box and fetches.
     */
    method Load(attempt: nat -> Response, data: array<Record>)
      modifies this, data
      ensures columns == ColumnNamesMap
      ensures sortColumn == ResolveSortColumn(SortIdxOf(ParamFromHash(old(hash), host), host), host)
      ensures var r := RepoNameOf(ParamFromHash(old(hash), host));
        r == "" ==> (q == old(q) && hash == old(hash) && history == old(history) && tableRows == [] &&
          banner == old(banner) && footer == old(footer) && requests == old(requests) && data[..] == old(data[..]))
      ensures var param := ParamFromHash(old(hash), host); var r := RepoNameOf(param);
        var d := Decide(r, param);
        r != "" ==> q == r && history == old(history) + (if d.push then ["#" + d.repo] else [])
    {
      var param := ParamFromHash(hash, host);
      var repo := GetRepoName(param);
      var sortIdx := GetSortIdx(param, host);
      InitDT(sortIdx);
      if repo != "" {
        q := repo;
        FetchData(attempt, data);
      }
    }
  }
}
