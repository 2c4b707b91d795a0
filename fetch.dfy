/**
 * retryFetch (js/main.js:171-182) over an abstract network, and the error
 * handling of fetchAndShow (js/main.js:184-203) and showMsg
 * (js/main.js:205-210).
 */
module Fetch {
  import opened Wrappers
  import opened Js
  import opened JsStrings
  import opened Table

  /** A fetch response as far as the model reads it. */
  datatype Response = Response(ok: bool, statusText: string)

  /** What retryFetch settles to, and how many requests it made in all. */
  datatype Fetched = Fetched(result: Result<Response, JsError>, attempts: nat)

  /** retryFetch's default `retries`, the only value fetchAndShow uses. */
  const DefaultRetries: int := 3

  /** The error thrown once the retries are used up. */
  const RequestFailed: JsError := JsError("Error", "请求失败")

  /** How many requests a call with `retries` may make: one, plus one per positive retry. */
  function Budget(retries: int): nat
  {
    if retries > 0 then retries + 1 else 1
  }

  /**
   * retryFetch(url, retries), with `attempt(k)` the response to the k-th
   * request to `url` and `made` the number of requests before this call.
   * It returns at the first OK response and makes no further request; it
   * fails exactly when all of its Budget(retries) requests are not OK, and
   * then it has made all of them.
   */
  function RetryFetch(attempt: nat -> Response, made: nat, retries: int): (r: Fetched)
    ensures made < r.attempts <= made + Budget(retries)
    ensures r.result.Success? ==> r.result.value == attempt(r.attempts - 1) && r.result.value.ok
    ensures r.result.Success? ==> forall k :: made <= k < r.attempts - 1 ==> !attempt(k).ok
    ensures r.result.Failure? <==> forall k :: made <= k < made + Budget(retries) ==> !attempt(k).ok
    ensures r.result.Failure? ==> r.attempts == made + Budget(retries) && r.result.error == RequestFailed
    decreases if retries > 0 then retries else 0
  {
    var response := attempt(made);
    if response.ok then Fetched(Success(response), made + 1)
    else if retries > 0 then RetryFetch(attempt, made + 1, retries - 1)
    else Fetched(Failure(RequestFailed), made + 1)
  }

  /** Two failures, then success: retryFetch with retries = 3 returns the third response after 3 requests. */
  lemma TwoFailuresThenSuccess(attempt: nat -> Response)
    requires !attempt(0).ok && !attempt(1).ok && attempt(2).ok
    ensures RetryFetch(attempt, 0, 3) == Fetched(Success(attempt(2)), 3)
  {
    var r := RetryFetch(attempt, 0, 3);
    assert r.result.Success?;
  }

  /** A network that always fails: with retries = 2, failure after exactly 3 requests. */
  lemma AlwaysFailing(attempt: nat -> Response)
    requires forall k :: !attempt(k).ok
    ensures RetryFetch(attempt, 0, 2) == Fetched(Failure(RequestFailed), 3)
  {
  }

  /** The rate-limit replacement of js/main.js:197-198. */
  const RateLimitText: string := "Error: API Rate Limit Exceeded"

  /** The text appended to every error shown. */
  const ConsoleHint: string := ". Additional info in console"

  /** The message the catch of fetchAndShow passes to showMsg. */
  function CatchMessage(e: JsError): string
  {
    (if Contains(ErrorToString(e), "Forbidden") then RateLimitText else ErrorToString(e)) + ConsoleHint
  }

  /** A pattern that occurs in `s` has its first character in `s`. */
  lemma ContainsHead(s: string, pat: string)
    requires |pat| > 0
    ensures Contains(s, pat) ==> pat[0] in s
  {
    if Contains(s, pat) {
      var i := IndexOf(s, pat).value;
      assert s[i..i + |pat|][0] == s[i];
    }
  }

  /** Text without a capital F cannot contain "Forbidden". */
  lemma NoForbiddenWithoutF(s: string)
    requires 'F' !in s
    ensures !Contains(s, "Forbidden")
  {
    ContainsHead(s, "Forbidden");
  }

  /**
   * The error retryFetch throws once the retries are used up is shown as
   * it is: the rate-limit message is not chosen for it.
   */
  lemma RequestFailedShownAsIs()
    ensures CatchMessage(RequestFailed) == "Error: 请求失败" + ConsoleHint
    ensures CatchMessage(RequestFailed) != RateLimitText + ConsoleHint
  {
    var text := ErrorToString(RequestFailed);
    assert text == "Error: 请求失败";
    assert 'F' !in text;
    NoForbiddenWithoutF(text);
    assert |text + ConsoleHint| != |RateLimitText + ConsoleHint|;
  }

  /** Neither "null" nor "undefined" holds a capital F. */
  lemma NullishDisplayHasNoF(owner: JsVal)
    requires Nullish(owner)
    ensures 'F' !in Display(owner)
  {
  }

  /** The TypeError of a null or undefined owner has no capital F in its message. */
  lemma NullOwnerMessageHasNoF(owner: JsVal)
    requires Nullish(owner)
    ensures 'F' !in NullOwnerError(owner).message
  {
    NullishDisplayHasNoF(owner);
    assert 'F' !in ReadErrorHead;
    assert 'F' !in ReadErrorTail;
  }

  /**
   * The TypeError of a null or undefined owner is shown as it is: the
   * rate-limit message is not chosen for it either.
   */
  lemma NullOwnerShownAsIs(owner: JsVal)
    requires Nullish(owner)
    ensures CatchMessage(NullOwnerError(owner)) == ErrorToString(NullOwnerError(owner)) + ConsoleHint
  {
    var e := NullOwnerError(owner);
    NullOwnerMessageHasNoF(owner);
    assert ErrorToString(e) == "TypeError: " + e.message;
    assert 'F' !in ErrorToString(e);
    NoForbiddenWithoutF(ErrorToString(e));
  }

  /** showMsg's alert class: 'alert-danger' exactly for type 'danger', 'alert-info' for anything else. */
  function AlertClass(msgType: string): (r: string)
    ensures r == "alert-danger" <==> msgType == "danger"
    ensures r != "alert-danger" ==> r == "alert-info"
  {
    if msgType == "danger" then "alert-danger" else "alert-info"
  }
}
