# active-forks request pipeline

This project models the logic of `js/main.js` in active-forks. That page lists the forks of a GitHub repository in a table, together with their stars, forks and last push. The model covers the string and decision logic that runs between the URL fragment (or the search box) and the table rows:

- the repository name taken from the fragment (`getRepoName`);
- the query parameters after the repository (`parseParams`) and the sort column they select (`getSortIdx` and the fallback in `initDT`);
- the validation and routing in `fetchData`, including when the fragment is rewritten;
- `retryFetch`, modelled over an abstract sequence of responses;
- the in-place enrichment of the fork records and the row projection in `updateDT`;
- the message chosen by the error handler of `fetchAndShow`, and the alert class used by `showMsg`.

Layout:

- `wrappers.dfy`: `Option` and `Result`.
- `js_values.dfy`: the JavaScript values that appear in fork records, truthiness, template-literal display, property access, `Error.prototype.toString`, and the numeric coercion used by `isNaN` and `<`.
- `js_strings.dfy`: the `String.prototype` operations the page calls: `includes`, `indexOf`, `split`, `replace` with a string pattern, `replace(/\.git$/, '')` and `replaceAll(' ', '')`.
- `repo_name.dfy`: `getRepoName`.
- `params.dfy`: `getParamFromUrl`, `parseParams` and `getSortIdx`.
- `table.dfy`: the column list, the sort-column fallback, the `repoLink`/`ownerName` templates and the row projection.
- `fetch.dfy`: `retryFetch`, the catch message and the alert class.
- `validation.dfy`: the regular-expression test and the decision `fetchData` makes.
- `page.dfy`: the class `Page`. Its fields are the page state the script reads and writes:
  - the search-box text;
  - `location.hash` and the history entries pushed;
  - the footer and the alert banner;
  - `columnNamesMap`, `sortColumnIdx` and the table rows;
  - the requests sent.

  Its methods are the script's functions. The fetched fork records are an `array` that `updateDT` changes in place.

Where the code and its own description of itself differ, the model follows the code:

- `getRepoName` is not idempotent. `a/b.git.git` becomes `a/b.git`, and then `a/b`.
- The two GitHub prefixes are removed wherever they first occur, not only at the start.
- A fork whose owner is `null` makes `updateDT` throw a TypeError at line 53, before the `Unknown` branch is reached. `Unknown` is shown only for an owner that is a falsy primitive (`false`, `0`, `""`).
- Within the model the rate-limit message at lines 196-199 is never shown (`Page.RateLimitNeverShown`). Here a response is only OK or not OK and its body is always an array of fork records, so every error that reaches the catch is either `Error: 请求失败` or that TypeError, and neither contains `Forbidden`. In a browser a rejected `fetch` or `response.json()` can bring other text to the catch (see "Left out").

## Model

| member | source | states |
|---|---|---|
| RepoName.BeforeQuery | js/main.js:156-158 | the text kept is a prefix of the input without '?', and it is either the whole input or is followed by the first '?' |
| RepoName.GetRepoName | js/main.js:154-163 | the result is the text before the first '?', with the first https://github.com/ occurrence removed, then the first http://github.com/ occurrence removed, then one trailing .git removed; it never contains '?' |
| RepoName.NoQueryInRepoName | js/main.js:154-163 | no input yields a repository name containing '?' |
| RepoName.RepoNameUnchanged | js/main.js:154-163 | an input with no '?', neither GitHub prefix and no trailing .git is returned unchanged |
| RepoName.RepoNameIdempotentWhenClean | js/main.js:154-163 | applying getRepoName twice gives the same result as once when the first result contains neither prefix and does not end in .git |
| RepoName.RepoNameNotIdempotent | js/main.js:161 | for any clean r, r.git.git becomes r.git and then r: applying getRepoName twice can differ from applying it once |
| RepoName.StripsOneGit | js/main.js:161 | exactly one trailing .git is removed from a name with no '?' or prefix |
| RepoName.CleanTextStep | js/main.js:159-161 | on text with no '?' and no prefix, only the .git strip can change it |
| RepoName.GithubUrlYieldsRepo | js/main.js:154-163 | a pasted clone URL https://github.com/r.git?query yields r |
| RepoName.CloneUrlExample | js/main.js:154-163 | https://github.com/owner/name.git?x=1 yields owner/name |
| RepoName.NotIdempotentExample | js/main.js:154-163 | a/b.git.git yields a/b.git, which in turn yields a/b |
| Params.ParseParams | js/main.js:125-137 | the loop over the &-separated pieces builds exactly the map ParamsOf describes for the pieces of the segment between the first and second '?' |
| Params.LastWithKey | js/main.js:130-133 | the index found is that of the last piece with the key, or there is no piece with it |
| Params.ParamsOfLookup | js/main.js:130-133 | a key is present iff some piece has it and it is not __proto__; its value is the decoded value of the last piece with that key |
| Params.ParamsKeys | js/main.js:130-133 | the keys are exactly the pre-'=' parts of the pieces, less __proto__ |
| Params.NoQueryNoParams | js/main.js:127-129 | no '?' or an empty segment after it gives an empty map |
| Params.QuerySegmentOf | js/main.js:128 | the segment parsed is the text between the first and second '?' |
| Params.GetSortIdx | js/main.js:144-152 | the sort value is 3 unless the parameters hold 'sort', in which case it is that parameter's string |
| Params.NoQueryDefaultSort | js/main.js:144-152 | a fragment without '?' gives sort 3 |
| Params.SortParamValue | js/main.js:144-152 | owner/name?sort=v gives the decoded string of v |
| Table.ArrayIndexOf | js/main.js:86-88 | Array.prototype.indexOf: -1 iff absent, otherwise the first position holding the value |
| Table.StarsColumn | js/main.js:67-78 | the column list has 8 entries and 'Stars' is first found at index 3, the default sort index |
| Table.ResolveSortColumn | js/main.js:80-89 | the sort column is the given value when it is truthy, not NaN and less than 8, and 3 ('Stars') in every other case |
| Table.DefaultSortIsStars | js/main.js:80-89 | the default sort index 3 is accepted and names the 'Stars' column |
| Table.StringSortColumn | js/main.js:80-89 | a string sort value is kept iff it is non-empty, numeric and less than 8; otherwise the column is 3 |
| Table.NegativeSortAccepted | js/main.js:83 | a negative number passes the check and is used as the sort column |
| Table.IntegerSortParam | js/main.js:80-89 | ?sort=n in the fragment selects column n when n < 8 and column 3 otherwise |
| Table.LinkIsNotPlaceholder | js/main.js:53 | an owner link never ends in the Unknown placeholder |
| Table.UnknownOnlyForFalsyOwner | js/main.js:53 | for an owner that can be read, the Unknown placeholder is written iff the owner is falsy |
| Table.TruthyOwnerLinks | js/main.js:53 | a truthy owner gets a link, not the placeholder |
| Table.FirstNullOwner | js/main.js:51-55 | finds the first record whose owner is null or undefined, or reports that there is none |
| Table.FirstNullOwnerAt | js/main.js:51-55 | the first null-owner record is the one at i when all before it have owners |
| Table.AllEnriched | js/main.js:51-55 | the enriched records are as many as the records |
| Table.AllEnrichedAt | js/main.js:51-55 | record i of the enriched list is record i with repoLink and ownerName added |
| Table.EnrichedRow | js/main.js:52-58 | an enriched record's row has 8 cells: the owner HTML, the repository link, then the record's fields named by columns 2..7 |
| Table.BuildRowsShape | js/main.js:50-58 | the rows are built iff no owner is null or undefined; then there is one row per record in order, each of 8 cells projected positionally through the column list |
| Table.NullOwnerThrows | js/main.js:53 | a record with a null owner makes the build fail with the TypeError for reading avatar_url of null, not an Unknown row |
| Fetch.RetryFetch | js/main.js:171-182 | at most max(retries,0)+1 requests; it returns the first OK response and makes no request after it; it fails with Error('请求失败') iff all budgeted responses are not OK, and then it has made all of them |
| Fetch.TwoFailuresThenSuccess | js/main.js:171-182 | two failures then an OK response give that response after three requests |
| Fetch.AlwaysFailing | js/main.js:171-182 | with retries 2 and no OK response, three requests are made and the call fails |
| Fetch.NoForbiddenWithoutF | js/main.js:197 | text without an 'F' cannot contain 'Forbidden' |
| Fetch.RequestFailedShownAsIs | js/main.js:195-200 | the exhausted-retries error is shown as 'Error: 请求失败. Additional info in console', not as the rate-limit text |
| Fetch.NullishDisplayHasNoF | js/main.js:53 | null and undefined display without an 'F' |
| Fetch.NullOwnerMessageHasNoF | js/main.js:53 | the TypeError message for a missing owner has no 'F' |
| Fetch.NullOwnerShownAsIs | js/main.js:195-200 | the null-owner TypeError is shown as its own text plus the console hint |
| Fetch.AlertClass | js/main.js:206-210 | the class is alert-danger iff the type is 'danger', and alert-info otherwise |
| Validation.RepoPatternTestImpliesMatch | js/main.js:26 | a '/' with a word character before it and a name character after it is a match of the regular expression |
| Validation.MatchImpliesRepoPatternTest | js/main.js:26 | every match of the regular expression has such a '/' |
| Validation.RepoPatternTestMatches | js/main.js:26-35 | the unanchored regular expression matches iff some '/' has a [-_A-Za-z0-9] before it and a [-_.A-Za-z0-9] after it |
| Validation.Decide | js/main.js:24-43 | the repository is the input without ASCII spaces; the fragment is pushed iff the fragment's repository is empty or differs; the request is made iff the pattern test holds |
| Validation.NoSlashIsInvalid | js/main.js:26 | text without '/' fails the test |
| Validation.NoSlashRefused | js/main.js:24-43 | input without '/' is not fetched, and with an empty fragment it is still pushed |
| Validation.EmptyInputPushed | js/main.js:24-43 | an empty search box pushes '#' and makes no request |
| Validation.SameRepoNotPushed | js/main.js:31-33 | when the fragment already names the same non-empty repository nothing is pushed |
| Validation.SurroundingSpacesRemoved | js/main.js:25 | spaces around a repository name are removed |
| Validation.OwnerSlashName | js/main.js:26 | owner/name over the allowed characters passes the test |
| Validation.OwnerNameIsValid | js/main.js:24-43 | ' owner/name ' under a different fragment is pushed and fetched as owner/name |
| Page.ThrowsAt | js/main.js:51-55 | when record i is the first without an owner, the records before it are enriched, record i gains only repoLink, the rest are untouched, and that TypeError is thrown |
| Page.CompletesAll | js/main.js:51-55 | when every record has an owner, all are enriched and nothing is thrown |
| Page.UpdateAgreesWithBuildRows | js/main.js:45-58 | the in-place update throws exactly the error the row builder reports, and otherwise the rows are those of the updated records |
| Page.Requests | js/main.js:171-187 | fetchAndShow sends between 1 and 4 requests, all for the forks API URL of the repository |
| Page.RateLimitNeverShown | js/main.js:195-200 | whatever the responses and records, fetchAndShow never shows the rate-limit text: neither the exhaustion error nor the null-owner TypeError contains 'Forbidden' |
| Page.EnrichForks | js/main.js:50-55 | the loop leaves the records as AfterUpdate says and throws exactly ThrownBy: it stops at the first null owner after adding its repoLink |
| Page.FragmentRoundTrip | js/main.js:224-228 | pushing '#repo' and reading the fragment back gives repo when decoding leaves it alone |
| Page.ResubmitNotPushed | js/main.js:24-33 | submitting again after a push does not push again when the repository is already in clean form |
| Page.GitSuffixAlwaysPushed | js/main.js:24-33 | a repository typed with a trailing .git is pushed on every submit, because the fragment reads back without it |
| Page.LoadPushesOnlyForSpaces | js/main.js:1-33 | on page load with a repository in the fragment, fetchData pushes iff that name contains a space |
| Page.Page.constructor | js/main.js:1-2 | the page starts with the given fragment and footer, an empty search box, no history, no banner, no columns and no rows |
| Page.Page.ShowMsg | js/main.js:205-222 | the banner shows the message with the class AlertClass gives, the footer is cleared, and nothing else changes |
| Page.Page.InitDT | js/main.js:65-120 | the columns are the 8-entry list, the sort column is ResolveSortColumn of the value, the table is empty, and nothing else changes |
| Page.Page.UpdateDT | js/main.js:45-63 | alerts are removed; the records change as AfterUpdate says; with no throw the table rows are the positional projection of the updated records, and on a throw they are unchanged |
| Page.Page.FetchAndShow | js/main.js:184-203 | the requests made are those of retryFetch; on success the records are updated and the rows drawn, and on any error a danger banner shows CatchMessage and the footer is cleared |
| Page.Page.FetchData | js/main.js:24-43 | the fragment and history get '#repo' iff Decide pushes; an invalid repository shows the invalid-repository danger message and sends nothing; a valid one sends the retry requests, updates the records when a response is OK, and either draws the rows (footer kept) or shows the error (rows kept, footer cleared) |
| Page.Page.FetchOrRefuse | js/main.js:35-42 | a repository that fails the pattern test shows the invalid-repository danger message and changes nothing else; one that passes sends the retry requests, updates the records on an OK response, and draws the rows or shows the error |
| Page.Page.Load | js/main.js:1-13 | the columns and sort column come from the fragment's parameters; an empty repository leaves everything else alone with an empty table; otherwise the search box holds the repository and fetchData runs |

## Left out

- DataTables, SearchBuilder, jQuery and Darkmode (lines 7, 20-22, 47, 59-62, 93-119) are third-party widgets. The table is modelled as the rows handed to it, and the order as the chosen sort column.
- `moment(data).fromNow()` (line 102) depends on the clock and on a foreign library.
- `fetch`, `response.json()` and `console.error` are network and I/O. A response is only OK or not OK. The n-th response is given by a function parameter. The parsed body is taken to be an array of fork records.
- `decodeURIComponent` and the string-to-number conversion used by `isNaN` and `<` are parameters of the page (`Host`). The lemmas that need concrete behaviour state it as a hypothesis. A URIError from malformed percent-encoding is not modelled.
- The browser's percent-encoding of characters written into `location.hash` by `pushState` is not modelled. The lemmas that read the fragment back require text without '%'.
- Numbers are integers. The sort value coming from the fragment is a string, and its numeric reading is the `Host` function, so fractional values enter only through it.
- The alert markup around the message (lines 214-221) is modelled as an alert class and a message.
- The `.alert` removal (line 47) is modelled as clearing the banner.
- Aliasing: the fork records are values in an array. The same object appearing twice in the response, where enriching one would change the other, is not modelled.
- Concurrency: requests in flight at the same time, racing to draw the table, are not modelled. Each `fetchAndShow` runs to completion.
- A `fetch(url)` that rejects (a network or CORS failure) skips the `.then` of `retryFetch` (lines 172-181), so it is not retried, and its error reaches the catch at line 195 with the browser's own message. A `response.json()` that rejects (line 190) does the same. Neither is modelled, because a response here is only OK or not OK and its body is always an array of fork records.
- The `!response.ok` check at line 189 has no branch in the model. `retryFetch` only ever resolves to an OK response (`Fetch.RetryFetch` states this), so the check never throws.
- Page.Page.Load: its contract states the columns, the sort column, the search box and the history entry. It leaves the requests, rows and banner of the nested fetchData to `Page.Page.FetchData`, whose contract states them.
