/**
 * The pure helpers of the site's authentication service (src/services/AuthService.js):
 * the bearer token of an Authorization header, the retry loop for rate-limited calls,
 * where the wait before a retry comes from, how that wait is worded, and the mapping
 * from an HTTP error to the response shown to the user.
 *
 * The operation retried is a parameter that answers each attempt; the timers are
 * not modelled, only the waits the loop asks for.
 */
module AuthService {
  import opened Wrappers
  import opened Strings
  import opened Numbers

  // ---------------------------------------------------------------------------
  // extractTokenFromHeader
  // ---------------------------------------------------------------------------

  const BearerPrefix: string := "Bearer "

  /** `extractTokenFromHeader(authHeader)`; a missing header is `None`. */
  function ExtractTokenFromHeader(authHeader: Option<string>): (r: Option<string>)
    ensures authHeader.None? || authHeader.value == "" <==> r.None?
  {
    match authHeader
    case None => None
    case Some(h) =>
      if h == "" then None
      else if StartsWith(h, BearerPrefix) then Some(h[|BearerPrefix|..])
      else Some(h)
  }

  /** The token of a "Bearer " header is what follows the prefix, whatever it is. */
  lemma TokenOfBearerHeader(token: string)
    ensures ExtractTokenFromHeader(Some(BearerPrefix + token)) == Some(token)
  {
    assert (BearerPrefix + token)[..|BearerPrefix|] == BearerPrefix;
  }

  /** A non-empty header without the prefix is the token itself, so extracting twice changes nothing more. */
  lemma TokenOfPlainHeader(h: string)
    requires h != "" && !StartsWith(h, BearerPrefix)
    ensures ExtractTokenFromHeader(Some(h)) == Some(h)
    ensures ExtractTokenFromHeader(ExtractTokenFromHeader(Some(h))) == Some(h)
  {
  }

  // ---------------------------------------------------------------------------
  // Errors
  // ---------------------------------------------------------------------------

  /** A JavaScript value found in an error's details: absent, a string or an integer. */
  datatype JsValue = Undefined | Str(s: string) | Num(n: int)

  predicate Truthy(v: JsValue) {
    match v
    case Undefined => false
    case Str(s) => s != ""
    case Num(n) => n != 0
  }

  /** `String(v)`, the text `parseInt` reads. */
  function TextOf(v: JsValue): string {
    match v
    case Undefined => "undefined"
    case Str(s) => s
    case Num(n) => IntToString(n)
  }

  /** `parseInt(v)`; `None` is NaN. */
  function ParseIntOf(v: JsValue): Option<int> {
    ParseInt(TextOf(v))
  }

  /** A number read with `parseInt` is the number. */
  lemma ParseIntOfNum(n: int)
    ensures ParseIntOf(Num(n)) == Some(n)
  {
    ParseIntOfIntToString(n);
  }

  datatype Details = Details(retryAfter: JsValue, message: JsValue, headers: Option<map<string, JsValue>>)

  /** An error thrown by the API client: its HTTP status, its message and its details. */
  datatype ApiError = ApiError(status: Option<int>, message: Option<string>, details: Option<Details>)

  // ---------------------------------------------------------------------------
  // extractRetryAfter
  // ---------------------------------------------------------------------------

  const RetryAfterText: string := "retry after "

  /** The regex `/retry after (\d+)/i` matches at index `i`. */
  predicate RetryAfterAt(msg: string, i: nat) {
    i + |RetryAfterText| < |msg|
    && (forall k :: 0 <= k < |RetryAfterText| ==> ToLowerChar(msg[i + k]) == RetryAfterText[k])
    && IsDigit(msg[i + |RetryAfterText|])
  }

  /** The leftmost match of `/retry after (\d+)/i` at or after `from`. */
  function MatchFrom(msg: string, from: nat): (r: Option<nat>)
    decreases |msg| - from
    ensures r.Some? ==> from <= r.value && RetryAfterAt(msg, r.value)
    ensures r.Some? ==> forall j: nat :: from <= j < r.value ==> !RetryAfterAt(msg, j)
    ensures r.None? ==> forall j: nat :: from <= j ==> !RetryAfterAt(msg, j)
  {
    if from + |RetryAfterText| >= |msg| then None
    else if RetryAfterAt(msg, from) then Some(from)
    else MatchFrom(msg, from + 1)
  }

  /** The number the regex captures: the digits after the leftmost match. */
  function RetryAfterInMessage(msg: string): Option<int> {
    match MatchFrom(msg, 0)
    case None => None
    case Some(i) => ParseInt(DigitPrefix(msg[i + |RetryAfterText|..]))
  }

  /** The `X-RateLimit-Reset-In` header, when the details carry it with a truthy value. */
  function ResetHeader(d: Details): Option<JsValue> {
    if d.headers.Some? && "X-RateLimit-Reset-In" in d.headers.value
      && Truthy(d.headers.value["X-RateLimit-Reset-In"])
    then Some(d.headers.value["X-RateLimit-Reset-In"])
    else None
  }

  /**
   * `extractRetryAfter(error)`: the seconds to wait, taken from `details.retryAfter`,
   * else from a "retry after N" in the message, else from the reset header, else 60.
   * `None` is NaN, which `parseInt` gives for text that does not start with a number.
   */
  function ExtractRetryAfter(error: ApiError): Option<int>
  {
    if error.details.Some? && Truthy(error.details.value.retryAfter) then
      ParseIntOf(error.details.value.retryAfter)
    else if error.message.Some? && error.message.value != "" && Contains(error.message.value, "retry after")
      && MatchFrom(error.message.value, 0).Some?
    then RetryAfterInMessage(error.message.value)
    else if error.details.Some? && ResetHeader(error.details.value).Some? then
      ParseIntOf(ResetHeader(error.details.value).value)
    else Some(60)
  }

  /**
   * The order of the sources: a truthy `details.retryAfter` decides alone; then a message
   * holding "retry after" and a match, whatever the header says; then a truthy reset
   * header; with none of them the wait is 60 seconds.
   */
  lemma ExtractRetryAfterPriority(error: ApiError)
    ensures error.details.Some? && Truthy(error.details.value.retryAfter) ==>
      ExtractRetryAfter(error) == ParseIntOf(error.details.value.retryAfter)
    ensures ((error.details.None? || !Truthy(error.details.value.retryAfter))
      && error.message.Some? && Contains(error.message.value, "retry after")
      && MatchFrom(error.message.value, 0).Some?) ==>
        ExtractRetryAfter(error) == RetryAfterInMessage(error.message.value)
    ensures ((error.details.None? || !Truthy(error.details.value.retryAfter))
      && (error.message.None? || !Contains(error.message.value, "retry after")
          || MatchFrom(error.message.value, 0).None?)
      && error.details.Some? && ResetHeader(error.details.value).Some?) ==>
        ExtractRetryAfter(error) == ParseIntOf(error.details.value.headers.value["X-RateLimit-Reset-In"])
    ensures ((error.details.None? || !Truthy(error.details.value.retryAfter))
      && (error.message.None? || !Contains(error.message.value, "retry after")
          || MatchFrom(error.message.value, 0).None?)
      && (error.details.None? || ResetHeader(error.details.value).None?)) ==> ExtractRetryAfter(error) == Some(60)
  {
    if error.message.Some? && Contains(error.message.value, "retry after") {
      assert error.message.value != "" by {
        var i: nat :| i <= |error.message.value| && OccursAt(error.message.value, "retry after", i);
      }
    }
  }

  /** A message "… retry after N …" with no earlier match and no `details` yields N. */
  lemma RetryAfterFromMessage(status: Option<int>, before: string, n: nat, after: string)
    requires forall j: nat :: j < |before| ==> !RetryAfterAt(before + RetryAfterText + NatToString(n) + after, j)
    requires after == [] || !IsDigit(after[0])
    ensures ExtractRetryAfter(ApiError(status, Some(before + RetryAfterText + NatToString(n) + after), None))
      == Some(n)
  {
    var msg := before + RetryAfterText + NatToString(n) + after;
    MessageMatch(before, NatToString(n), after);
    FirstMatch(msg, |before|);
    NumberAfterMatch(msg, |before|, n, after);
    ExtractFromMessage(status, msg);
  }

  /** Without details, a message that holds a match yields the number the regex captures. */
  lemma ExtractFromMessage(status: Option<int>, msg: string)
    requires Contains(msg, "retry after") && MatchFrom(msg, 0).Some?
    ensures ExtractRetryAfter(ApiError(status, Some(msg), None)) == RetryAfterInMessage(msg)
  {
  }

  /** The text "retry after " followed by digits matches where it is written, and is contained in the message. */
  lemma MessageMatch(before: string, digits: string, after: string)
    requires |digits| >= 1 && AllDigits(digits)
    ensures var msg := before + RetryAfterText + digits + after;
      RetryAfterAt(msg, |before|) && Contains(msg, "retry after")
      && msg[|before| + |RetryAfterText|..] == digits + after
  {
    var msg := before + RetryAfterText + digits + after;
    var i := |before|;
    assert msg[i..i + |RetryAfterText|] == RetryAfterText;
    assert msg[i + |RetryAfterText|..] == digits + after;
    assert OccursAt(msg, "retry after", i) by {
      assert msg[i..i + |"retry after"|] == "retry after";
    }
  }

  /** The number after the leftmost match is the digits written there. */
  lemma NumberAfterMatch(msg: string, i: nat, n: nat, after: string)
    requires MatchFrom(msg, 0) == Some(i)
    requires i + |RetryAfterText| <= |msg| && msg[i + |RetryAfterText|..] == NatToString(n) + after
    requires after == [] || !IsDigit(after[0])
    ensures RetryAfterInMessage(msg) == Some(n)
  {
    var digits := NatToString(n);
    DigitPrefixOfConcat(digits, after);
    ParseIntOfIntToString(n);
    assert IntToString(n) == digits;
  }

  /** The match at `i`, with none before it, is the leftmost match. */
  lemma FirstMatch(msg: string, i: nat)
    requires RetryAfterAt(msg, i) && forall j: nat :: j < i ==> !RetryAfterAt(msg, j)
    ensures MatchFrom(msg, 0) == Some(i)
  {
  }

  /** The longest digit prefix of digits followed by a non-digit is those digits. */
  lemma {:induction false} DigitPrefixOfConcat(digits: string, after: string)
    requires AllDigits(digits)
    requires after == [] || !IsDigit(after[0])
    ensures DigitPrefix(digits + after) == digits
  {
    if digits == [] {
    } else {
      assert (digits + after)[1..] == digits[1..] + after;
      DigitPrefixOfConcat(digits[1..], after);
    }
  }

  /** The `details.retryAfter` number wins over everything else. */
  lemma RetryAfterFromDetails(status: Option<int>, message: Option<string>, n: int, headers: Option<map<string, JsValue>>, detailMessage: JsValue)
    requires n != 0
    ensures ExtractRetryAfter(ApiError(status, message, Some(Details(Num(n), detailMessage, headers)))) == Some(n)
  {
    ParseIntOfNum(n);
  }

  // ---------------------------------------------------------------------------
  // withRetry
  // ---------------------------------------------------------------------------

  /** What one call of the operation did. */
  datatype Attempt<T> = Succeeded(value: T) | Failed(error: ApiError)

  /** What `withRetry` did in the end: returned a value or threw (`null` when there was no attempt). */
  datatype Outcome<T> = Returned(value: T) | Threw(error: Option<ApiError>)

  /** The run of `withRetry`: the outcome, the number of calls made and the waits before each retry. */
  datatype Run<T> = Run(outcome: Outcome<T>, attempts: nat, delays: seq<int>)

  /** `baseDelay * Math.pow(2, attempt)`, by doubling. */
  function Backoff(baseDelay: int, attempt: nat): int {
    if attempt == 0 then baseDelay else 2 * Backoff(baseDelay, attempt - 1)
  }

  function Min(a: int, b: int): int {
    if a <= b then a else b
  }

  /**
   * The wait before retrying after `error` at `attempt`: the server's retry-after in
   * milliseconds when it is a non-zero number, else `baseDelay · 2^attempt` capped at `maxDelay`.
   */
  function Delay(error: ApiError, attempt: nat, baseDelay: int, maxDelay: int): int
  {
    var retryAfter := ExtractRetryAfter(error);
    var exponentialDelay := Min(Backoff(baseDelay, attempt), maxDelay);
    if retryAfter.Some? && retryAfter.value != 0 then retryAfter.value * 1000 else exponentialDelay
  }

  /** `Math.pow(2, n)`. */
  function Pow2(n: nat): (r: nat)
    ensures r >= 1
  {
    if n == 0 then 1 else 2 * Pow2(n - 1)
  }

  /** Doubling `attempt` times is multiplying by `2^attempt`. */
  lemma {:induction false} BackoffIsPower(baseDelay: int, attempt: nat)
    ensures Backoff(baseDelay, attempt) == baseDelay * Pow2(attempt)
  {
    if attempt > 0 {
      BackoffIsPower(baseDelay, attempt - 1);
      assert 2 * (baseDelay * Pow2(attempt - 1)) == baseDelay * (2 * Pow2(attempt - 1));
    }
  }

  /**
   * The wait is the server's number of seconds in milliseconds when that is a non-zero number
   * (NaN and 0 are falsy), else `min(baseDelay · 2^attempt, maxDelay)`.
   */
  lemma DelayChoice(error: ApiError, attempt: nat, baseDelay: int, maxDelay: int)
    ensures var ra := ExtractRetryAfter(error);
      var d := Delay(error, attempt, baseDelay, maxDelay);
      && (ra.Some? && ra.value != 0 ==> d == ra.value * 1000)
      && (ra.None? || ra.value == 0 ==> d == Min(baseDelay * Pow2(attempt), maxDelay))
  {
    BackoffIsPower(baseDelay, attempt);
  }

  /** Only a rate-limited failure is retried. */
  predicate RateLimited(e: ApiError) {
    e.status == Some(429)
  }

  /** The wait rule of `withRetry` with its options, as a function of the error and the attempt. */
  function DelayRule(baseDelay: int, maxDelay: int): (ApiError, nat) -> int {
    (e: ApiError, attempt: nat) => Delay(e, attempt, baseDelay, maxDelay)
  }

  /** The loop of `withRetry` from `attempt` on, for a given wait rule. */
  function Retrying<T>(operation: nat -> Attempt<T>, maxRetries: int, delay: (ApiError, nat) -> int, attempt: nat): (r: Run<T>)
    requires attempt <= maxRetries
    decreases maxRetries - attempt
    ensures attempt < r.attempts <= maxRetries + 1
  {
    match operation(attempt)
    case Succeeded(v) => Run(Returned(v), attempt + 1, [])
    case Failed(e) =>
      if !RateLimited(e) || attempt == maxRetries then Run(Threw(Some(e)), attempt + 1, [])
      else
        var rest := Retrying(operation, maxRetries, delay, attempt + 1);
        Run(rest.outcome, rest.attempts, [delay(e, attempt)] + rest.delays)
  }

  /** `withRetry(operation, { maxRetries, baseDelay, maxDelay })`. */
  function WithRetrySpec<T>(operation: nat -> Attempt<T>, maxRetries: int, baseDelay: int, maxDelay: int): Run<T> {
    if maxRetries < 0 then Run(Threw(None), 0, [])
    else Retrying(operation, maxRetries, DelayRule(baseDelay, maxDelay), 0)
  }

  /**
   * What a run from `attempt` means: every call before the last failed with 429 and was
   * followed by its wait; the last call is the one whose result or error comes out; a
   * 429 is given up on only at the last allowed call.
   */
  lemma {:induction false} RetryingMeans<T>(operation: nat -> Attempt<T>, maxRetries: int, delay: (ApiError, nat) -> int, attempt: nat)
    requires attempt <= maxRetries
    decreases maxRetries - attempt
    ensures var r := Retrying(operation, maxRetries, delay, attempt);
      && |r.delays| == r.attempts - 1 - attempt
      && (forall j :: attempt <= j < r.attempts - 1 ==>
            operation(j).Failed? && RateLimited(operation(j).error)
            && r.delays[j - attempt] == delay(operation(j).error, j))
      && (r.outcome.Returned? ==> operation(r.attempts - 1) == Succeeded(r.outcome.value))
      && (r.outcome.Threw? ==> r.outcome.error.Some? && operation(r.attempts - 1) == Failed(r.outcome.error.value))
      && (r.outcome.Threw? && RateLimited(r.outcome.error.value) ==> r.attempts == maxRetries + 1)
  {
    var r := Retrying(operation, maxRetries, delay, attempt);
    if operation(attempt).Failed? {
      var e := operation(attempt).error;
      if RateLimited(e) && attempt < maxRetries {
        var rest := Retrying(operation, maxRetries, delay, attempt + 1);
        RetryingMeans(operation, maxRetries, delay, attempt + 1);
        assert r == Run(rest.outcome, rest.attempts, [delay(e, attempt)] + rest.delays);
        forall j | attempt < j < r.attempts - 1
          ensures r.delays[j - attempt] == delay(operation(j).error, j)
        {
          assert r.delays[j - attempt] == rest.delays[j - attempt - 1];
        }
      }
    }
  }

  /**
   * `withRetry` never retries an error other than 429, makes at most `maxRetries + 1`
   * calls, waits by the retry-after or back-off rule before each retry, and gives up on
   * a 429 only at the last allowed call.
   */
  lemma WithRetryMeans<T>(operation: nat -> Attempt<T>, maxRetries: int, baseDelay: int, maxDelay: int)
    ensures var r := WithRetrySpec(operation, maxRetries, baseDelay, maxDelay);
      && r.attempts <= (if maxRetries < 0 then 0 else maxRetries + 1)
      && (r.attempts == 0 <==> r.outcome == Threw(None))
      && |r.delays| == (if r.attempts == 0 then 0 else r.attempts - 1)
      && (forall j :: 0 <= j < r.attempts - 1 ==>
            operation(j).Failed? && RateLimited(operation(j).error)
            && r.delays[j] == Delay(operation(j).error, j, baseDelay, maxDelay))
      && (r.outcome.Returned? ==> operation(r.attempts - 1) == Succeeded(r.outcome.value))
      && (r.outcome.Threw? && r.outcome.error.Some? ==> operation(r.attempts - 1) == Failed(r.outcome.error.value))
      && (r.outcome.Threw? && r.outcome.error.Some? && RateLimited(r.outcome.error.value) ==> r.attempts == maxRetries + 1)
  {
    if maxRetries >= 0 {
      var rule := DelayRule(baseDelay, maxDelay);
      var r := Retrying(operation, maxRetries, rule, 0);
      assert WithRetrySpec(operation, maxRetries, baseDelay, maxDelay) == r;
      RetryingMeans(operation, maxRetries, rule, 0);
      forall j | 0 <= j < r.attempts - 1
        ensures r.delays[j] == Delay(operation(j).error, j, baseDelay, maxDelay)
      {
        assert r.delays[j] == rule(operation(j).error, j);
      }
    }
  }

  /** The first call failing with something other than 429 ends the run with that error. */
  lemma NoRetryOnOtherErrors<T>(operation: nat -> Attempt<T>, maxRetries: int, baseDelay: int, maxDelay: int)
    requires maxRetries >= 0 && operation(0).Failed? && !RateLimited(operation(0).error)
    ensures WithRetrySpec(operation, maxRetries, baseDelay, maxDelay) == Run(Threw(Some(operation(0).error)), 1, [])
  {
  }

  /** One step of the loop: a 429 before the last allowed call is followed by its wait and the next call. */
  lemma RetryingStep<T>(operation: nat -> Attempt<T>, maxRetries: int, delay: (ApiError, nat) -> int, attempt: nat)
    requires attempt < maxRetries && operation(attempt).Failed? && RateLimited(operation(attempt).error)
    ensures var rest := Retrying(operation, maxRetries, delay, attempt + 1);
      Retrying(operation, maxRetries, delay, attempt)
        == Run(rest.outcome, rest.attempts, [delay(operation(attempt).error, attempt)] + rest.delays)
  {
  }

  /** The last call of a run: a success, an error other than 429, or a 429 at the last allowed call. */
  lemma RetryingEnds<T>(operation: nat -> Attempt<T>, maxRetries: int, delay: (ApiError, nat) -> int, attempt: nat, waited: seq<int>)
    requires attempt <= maxRetries
    requires operation(attempt).Failed? ==> !RateLimited(operation(attempt).error) || attempt == maxRetries
    ensures After(waited, Retrying(operation, maxRetries, delay, attempt))
      == Run(if operation(attempt).Succeeded? then Returned(operation(attempt).value)
             else Threw(Some(operation(attempt).error)), attempt + 1, waited)
  {
    assert waited + [] == waited;
  }

  /** A 429 before the last allowed call adds its wait to those already asked for. */
  lemma RetryingContinues<T>(operation: nat -> Attempt<T>, maxRetries: int, delay: (ApiError, nat) -> int, attempt: nat, waited: seq<int>)
    requires attempt < maxRetries && operation(attempt).Failed? && RateLimited(operation(attempt).error)
    ensures After(waited, Retrying(operation, maxRetries, delay, attempt))
      == After(waited + [delay(operation(attempt).error, attempt)], Retrying(operation, maxRetries, delay, attempt + 1))
  {
    RetryingStep(operation, maxRetries, delay, attempt);
    var rest := Retrying(operation, maxRetries, delay, attempt + 1);
    assert waited + ([delay(operation(attempt).error, attempt)] + rest.delays)
      == (waited + [delay(operation(attempt).error, attempt)]) + rest.delays;
  }

  /** A run from some attempt on, after the waits already asked for. */
  function After<T>(waited: seq<int>, r: Run<T>): Run<T> {
    Run(r.outcome, r.attempts, waited + r.delays)
  }

  /** The loop of `withRetry`, with the waits it asks for in place of the timers. */
  method WithRetry<T>(operation: nat -> Attempt<T>, maxRetries: int, baseDelay: int, maxDelay: int)
    returns (outcome: Outcome<T>, attempts: nat, delays: seq<int>)
    ensures Run(outcome, attempts, delays) == WithRetrySpec(operation, maxRetries, baseDelay, maxDelay)
  {
    ghost var rule := DelayRule(baseDelay, maxDelay);
    ghost var spec := WithRetrySpec(operation, maxRetries, baseDelay, maxDelay);
    var lastError: Option<ApiError> := None;
    var attempt: nat := 0;
    delays := [];
    if maxRetries >= 0 {
      assert [] + Retrying(operation, maxRetries, rule, 0).delays == Retrying(operation, maxRetries, rule, 0).delays;
    }
    while attempt <= maxRetries
      invariant |delays| == attempt
      invariant attempt == 0 || attempt <= maxRetries
      invariant attempt == 0 ==> lastError.None?
      invariant attempt <= maxRetries ==> spec == After(delays, Retrying(operation, maxRetries, rule, attempt))
      decreases maxRetries - attempt
    {
      var result := operation(attempt);
      if result.Succeeded? {
        RetryingEnds(operation, maxRetries, rule, attempt, delays);
        return Returned(result.value), attempt + 1, delays;
      }
      lastError := Some(result.error);
      if !RateLimited(result.error) || attempt == maxRetries {
        RetryingEnds(operation, maxRetries, rule, attempt, delays);
        return Threw(Some(result.error)), attempt + 1, delays;
      }
      var delay := RetryDelay(result.error, attempt, baseDelay, maxDelay);
      RetryingContinues(operation, maxRetries, rule, attempt, delays);
      delays := delays + [delay];
      attempt := attempt + 1;
    }
    return Threw(lastError), 0, [];
  }

  /** The wait computed in the loop body: the server's retry-after, else the capped back-off. */
  method RetryDelay(error: ApiError, attempt: nat, baseDelay: int, maxDelay: int) returns (delay: int)
    ensures delay == Delay(error, attempt, baseDelay, maxDelay)
  {
    var retryAfter := ExtractRetryAfter(error);
    var exponentialDelay := Min(Backoff(baseDelay, attempt), maxDelay);
    delay := if retryAfter.Some? && retryAfter.value != 0 then retryAfter.value * 1000 else exponentialDelay;
  }

  // ---------------------------------------------------------------------------
  // formatRetryTime, createRateLimitMessage, handleError
  // ---------------------------------------------------------------------------

  /** `Math.ceil(seconds / 60)` for a positive number of seconds: the whole minutes that cover it. */
  function CeilMinutes(seconds: int): (m: int)
    requires seconds > 0
    ensures (m - 1) * 60 < seconds <= m * 60
  {
    (seconds + 59) / 60
  }

  /** `formatRetryTime(retryAfter)`; `None` is NaN or null. */
  function FormatRetryTime(retryAfter: Option<int>): string {
    if retryAfter.None? || retryAfter.value == 0 then "unos momentos"
    else if retryAfter.value < 60 then IntToString(retryAfter.value) + " segundos"
    else
      var minutes := CeilMinutes(retryAfter.value);
      IntToString(minutes) + " minuto" + (if minutes > 1 then "s" else "")
  }

  /** Under a minute the wait is worded in seconds; otherwise in the whole minutes that cover it, plural above one. */
  lemma FormatRetryTimeWording(seconds: int)
    requires seconds != 0
    ensures seconds < 60 ==> FormatRetryTime(Some(seconds)) == IntToString(seconds) + " segundos"
    ensures seconds >= 60 ==> exists m: int ::
      (m - 1) * 60 < seconds <= m * 60
      && FormatRetryTime(Some(seconds)) == IntToString(m) + (if seconds > 60 then " minutos" else " minuto")
  {
    if seconds >= 60 {
      var m := CeilMinutes(seconds);
      assert m > 1 <==> seconds > 60;
      assert IntToString(m) + " minuto" + "s" == IntToString(m) + " minutos";
    }
  }

  /** `createRateLimitMessage(retryAfter, action)`. */
  function CreateRateLimitMessage(retryAfter: Option<int>, action: string): string {
    "Has excedido el límite de intentos para " + action + ". Inténtalo de nuevo en "
      + FormatRetryTime(retryAfter) + "."
  }

  /** The response `handleError` gives: always unsuccessful. */
  datatype ErrorResponse = ErrorResponse(error: string, rateLimited: bool, retryAfter: Option<int>)

  /** `handleError(error, context)`, without the logging and the `rateLimitInfo` timestamp. */
  function HandleError(error: ApiError, context: string): (r: ErrorResponse)
    ensures r.rateLimited <==> error.status == Some(429)
    ensures r.rateLimited ==>
      r.retryAfter == ExtractRetryAfter(error) && r.error == CreateRateLimitMessage(r.retryAfter, context)
    ensures !r.rateLimited ==> r.retryAfter.None?
    ensures error.status == Some(401) ==> r.error == "No autorizado o credenciales inválidas"
    ensures error.status == Some(403) ==> r.error == "Acceso denegado"
    ensures error.status == Some(404) ==> r.error == "Recurso no encontrado"
    ensures error.status == Some(500) ==> r.error == "Error interno del servidor"
    ensures error.status == Some(400) ==> r.error == DetailsMessageOr(error, "Datos inválidos")
    ensures error.status !in {Some(400), Some(401), Some(403), Some(404), Some(429), Some(500)} ==>
      r == ErrorResponse("Error de conexión con el servidor", false, None)
  {
    if error.status == Some(429) then
      var retryAfter := ExtractRetryAfter(error);
      ErrorResponse(CreateRateLimitMessage(retryAfter, context), true, retryAfter)
    else if error.status == Some(400) then ErrorResponse(DetailsMessageOr(error, "Datos inválidos"), false, None)
    else if error.status == Some(401) then ErrorResponse("No autorizado o credenciales inválidas", false, None)
    else if error.status == Some(403) then ErrorResponse("Acceso denegado", false, None)
    else if error.status == Some(404) then ErrorResponse("Recurso no encontrado", false, None)
    else if error.status == Some(500) then ErrorResponse("Error interno del servidor", false, None)
    else ErrorResponse("Error de conexión con el servidor", false, None)
  }

  /** `error.details?.message || fallback`. */
  function DetailsMessageOr(error: ApiError, fallback: string): string {
    if error.details.Some? && Truthy(error.details.value.message) then TextOf(error.details.value.message)
    else fallback
  }
}
