/**
 The GitHub retrier of pkg/retry/github_retry.go: error classification, per-kind limits and the
 retry loop, with the two plainer loops of pkg/retry/retry.go and pkg/services/retry_service.go.
 What the operation returns, the clock, the jitter and cancellation are functions of the attempt.
 */
module GitHubRetry {
  import opened Backoff
  import opened Strings
  import opened Wrappers

  datatype Kind = General | RateLimit | Network | Auth | NotFound

  datatype Config = Config(maxRetries: int, initialDelay: int, maxDelay: int, multiplier: real, jitter: bool,
                           rateLimitMaxRetries: int, rateLimitBaseDelay: int, rateLimitMaxDelay: int,
                           networkMaxRetries: int, networkBaseDelay: int, networkMaxDelay: int)
  {
    function Limit(kind: Kind): int {
      match kind
      case General => maxRetries
      case RateLimit => rateLimitMaxRetries
      case Network => networkMaxRetries
      case _ => 0
    }

    function Base(kind: Kind): int {
      match kind
      case RateLimit => rateLimitBaseDelay
      case Network => networkBaseDelay
      case _ => initialDelay
    }

    function Cap(kind: Kind): int {
      match kind
      case RateLimit => rateLimitMaxDelay
      case Network => networkMaxDelay
      case _ => maxDelay
    }

    predicate Sane() {
      && multiplier >= 0.0
      && forall k: Kind :: Base(k) >= 0 && Cap(k) >= 0
    }

    function LargestCap(): (c: int)
      ensures forall k: Kind :: Cap(k) <= c
    {
      var c := if rateLimitMaxDelay > networkMaxDelay then rateLimitMaxDelay else networkMaxDelay;
      if maxDelay > c then maxDelay else c
    }
  }

  /** An HTTP response with its parsed rate-limit headers. */
  datatype Response = Response(status: int, reset: Option<int>, retryAfter: Option<int>)

  datatype Attempt = Success | Failure(message: string, isNetError: bool, response: Option<Response>)

  datatype GitHubError = GitHubError(kind: Kind, status: int, message: string, reset: Option<int>, retryAfter: int)

  const NETWORK_PATTERNS := ["connection refused", "connection reset", "connection timeout", "network is unreachable",
                             "no such host", "timeout", "dns", "tcp", "i/o timeout"]

  predicate LooksLikeNetwork(message: string) {
    exists p :: p in NETWORK_PATTERNS && Contains(ToLower(message), p)
  }

  /** ClassifyGitHubError: the text of the error is looked at before the HTTP status. */
  function Classify(a: Attempt): GitHubError
    requires a.Failure?
  {
    var plain := GitHubError(General, 0, a.message, None, 0);
    if a.isNetError || LooksLikeNetwork(a.message) then plain.(kind := Network)
    else if a.response.None? then plain
    else
      var r := a.response.value;
      if r.status == 403 || r.status == 429 then
        GitHubError(RateLimit, r.status, "GitHub API rate limit exceeded", r.reset, r.retryAfter.GetOr(0))
      else if r.status == 401 then
        plain.(kind := Auth, status := r.status, message := "GitHub API authentication failed")
      else if r.status == 404 then
        plain.(kind := NotFound, status := r.status, message := "GitHub API resource not found")
      else plain.(status := r.status)
  }

  /** shouldRetryError: None is "do not retry", otherwise the delay before the next attempt. */
  function ShouldRetry(c: Config, e: GitHubError, attempt: nat, now: int, u: real): Option<int> {
    var delay := GitHubDelay(c.Base(e.kind), c.Cap(e.kind), c.multiplier, c.jitter, attempt, u);
    match e.kind
    case RateLimit =>
      if attempt >= c.rateLimitMaxRetries then None
      else if e.reset.Some? && 0 < e.reset.value - now <= c.rateLimitMaxDelay then Some(e.reset.value - now)
      else if 0 < e.retryAfter <= c.rateLimitMaxDelay then Some(e.retryAfter)
      else Some(delay)
    case Network => if attempt >= c.networkMaxRetries then None else Some(delay)
    case Auth => None
    case NotFound => None
    case General => if attempt >= c.maxRetries then None else Some(delay)
  }

  /** What the loop meets at each attempt. */
  datatype World = World(attempt: nat -> Attempt, now: nat -> int, jitter: nat -> real, cancelled: nat -> bool) {
    ghost predicate Fair() {
      forall i :: 0.0 <= jitter(i) < 1.0
    }

    function Error(i: nat): GitHubError
      requires attempt(i).Failure?
    {
      Classify(attempt(i))
    }
  }

  /** How the loop ends.  Behind it the source reads the last error, which is nil if there was no
      attempt at all: that is a panic, not an error returned. */
  datatype Result = Succeeded | NonRetryable(attempts: nat, error: GitHubError) | Exhausted(error: GitHubError)
                  | Cancelled | Panicked

  /** The delay after attempt `i`, if that attempt is one that may be retried. */
  function DelayAfter(c: Config, w: World, i: nat): Option<int>
    requires w.attempt(i).Failure?
  {
    ShouldRetry(c, w.Error(i), i, w.now(i), w.jitter(i))
  }

  /** How attempt `i` ends the loop, or None if the loop goes on after it. */
  function Verdict(c: Config, w: World, i: nat): Option<Result> {
    if w.attempt(i).Success? then Some(Succeeded)
    else if DelayAfter(c, w, i).None? then Some(NonRetryable(i + 1, w.Error(i)))
    else if i == c.maxRetries then Some(Exhausted(w.Error(i)))
    else if w.cancelled(i) then Some(Cancelled)
    else None
  }

  /** The loop made exactly the calls up to the first attempt with a verdict, sleeping the delay of
      each attempt before the next one. */
  ghost predicate Trace(c: Config, w: World, r: Result, calls: nat, sleeps: seq<int>) {
    && calls >= 1
    && Verdict(c, w, calls - 1) == Some(r)
    && |sleeps| == calls - 1
    && forall i: nat :: i < calls - 1 ==>
         Verdict(c, w, i) == None && DelayAfter(c, w, i) == Some(sleeps[i])
  }

  method DoWithGitHubRetry(c: Config, w: World) returns (r: Result, calls: nat, sleeps: seq<int>)
    ensures c.maxRetries >= 0 ==> Trace(c, w, r, calls, sleeps)
    ensures r == Panicked <==> c.maxRetries < 0
    ensures r == Panicked ==> calls == 0
  {
    calls, sleeps := 0, [];
    var attempt: nat := 0;
    while attempt <= c.maxRetries
      invariant calls == attempt == |sleeps|
      invariant attempt == 0 || attempt <= c.maxRetries
      invariant forall i: nat :: i < attempt ==>
                  Verdict(c, w, i) == None && DelayAfter(c, w, i) == Some(sleeps[i])
      decreases c.maxRetries - attempt
    {
      var result := w.attempt(attempt);
      calls := calls + 1;
      if result.Success? {
        return Succeeded, calls, sleeps;
      }
      var error := Classify(result);
      var delay := ShouldRetry(c, error, attempt, w.now(attempt), w.jitter(attempt));
      if delay.None? {
        return NonRetryable(attempt + 1, error), calls, sleeps;
      }
      if attempt == c.maxRetries {
        return Exhausted(error), calls, sleeps;
      }
      if w.cancelled(attempt) {
        return Cancelled, calls, sleeps;
      }
      sleeps := sleeps + [delay.value];
      attempt := attempt + 1;
    }
    r := Panicked;
  }

  lemma {:induction false} BelowMaxRetries(c: Config, w: World, r: Result, calls: nat, sleeps: seq<int>, i: nat)
    requires c.maxRetries >= 0 && Trace(c, w, r, calls, sleeps) && i < calls - 1
    ensures i < c.maxRetries
  {
    assert Verdict(c, w, i) == None;
    if i == 0 {
    } else {
      BelowMaxRetries(c, w, r, calls, sleeps, i - 1);
    }
  }

  // ---- What is retried, and when ----------------------------------------------------------

  lemma ContainsSuffix(s: string, whole: string, part: string)
    requires Contains(s, whole) && |part| <= |whole| && whole[|whole| - |part|..] == part
    ensures Contains(s, part)
  {
    var i :| 0 <= i <= |s| && StandsAt(s, whole, i);
    var at := i + |whole| - |part|;
    assert s[at..at + |part|] == s[i..i + |whole|][|whole| - |part|..];
    assert StandsAt(s, part, at);
  }

  /** Seven words in the lower-cased text make an error one of the network; the other two patterns end in
      one of them. */
  lemma SevenWordsDecide(message: string)
    ensures var text := ToLower(message);
            LooksLikeNetwork(message) <==>
              || Contains(text, "connection refused") || Contains(text, "connection reset")
              || Contains(text, "network is unreachable") || Contains(text, "no such host")
              || Contains(text, "timeout") || Contains(text, "dns") || Contains(text, "tcp")
  {
    var text, p := ToLower(message), NETWORK_PATTERNS;
    assert p[0] == "connection refused" && p[1] == "connection reset" && p[3] == "network is unreachable";
    assert p[4] == "no such host" && p[5] == "timeout" && p[6] == "dns" && p[7] == "tcp";
    if Contains(text, "connection timeout") {
      ContainsSuffix(text, "connection timeout", "timeout");
    }
    if Contains(text, "i/o timeout") {
      ContainsSuffix(text, "i/o timeout", "timeout");
    }
  }

  /** A network error, by its type or by its text. */
  predicate IsNetwork(a: Attempt)
    requires a.Failure?
  {
    a.isNetError || LooksLikeNetwork(a.message)
  }

  function StatusOf(a: Attempt): int
    requires a.Failure?
  {
    if a.response.Some? then a.response.value.status else 0
  }

  /** How often a failure of this sort may be retried. */
  predicate MayRetry(c: Config, a: Attempt, i: nat)
    requires a.Failure?
  {
    if IsNetwork(a) then i < c.networkMaxRetries
    else if StatusOf(a) in {403, 429} then i < c.rateLimitMaxRetries
    else StatusOf(a) !in {401, 404} && i < c.maxRetries
  }

  /** A failure is retried exactly if it is not a final status and its own limit is not reached. */
  lemma RetriedIff(c: Config, w: World, i: nat)
    requires w.attempt(i).Failure?
    ensures DelayAfter(c, w, i).Some? <==> MayRetry(c, w.attempt(i), i)
  {
  }

  /** And it is retried after this delay: a network error and a general one after their own exponential
      delays, a rate limit at its reset, if that is ahead and within the cap, else after the time
      in Retry-After, if that is within the cap, else after its own exponential delay. */
  lemma DelayByKind(c: Config, w: World, i: nat)
    requires w.attempt(i).Failure? && MayRetry(c, w.attempt(i), i)
    ensures var a, d, now, u := w.attempt(i), DelayAfter(c, w, i).GetOr(-1), w.now(i), w.jitter(i);
            && (IsNetwork(a) ==>
                  d == GitHubDelay(c.networkBaseDelay, c.networkMaxDelay, c.multiplier, c.jitter, i, u))
            && (!IsNetwork(a) && StatusOf(a) !in {403, 429} ==>
                  d == GitHubDelay(c.initialDelay, c.maxDelay, c.multiplier, c.jitter, i, u))
            && (!IsNetwork(a) && StatusOf(a) in {403, 429} ==>
                  var r := a.response.value;
                  if r.reset.Some? && now < r.reset.value <= now + c.rateLimitMaxDelay then d == r.reset.value - now
                  else if r.retryAfter.Some? && 0 < r.retryAfter.value <= c.rateLimitMaxDelay
                  then d == r.retryAfter.value
                  else d == GitHubDelay(c.rateLimitBaseDelay, c.rateLimitMaxDelay, c.multiplier, c.jitter, i, u))
  {
  }

  /** The loop goes on after an attempt exactly if it failed, may be retried, is not the last one and
      nobody cancelled. */
  predicate GoesOn(c: Config, w: World, i: nat) {
    w.attempt(i).Failure? && MayRetry(c, w.attempt(i), i) && i != c.maxRetries && !w.cancelled(i)
  }

  /** The whole run of the loop: it goes on up to its last call and sleeps the delays in between; it ends
      with success, with an error that may not be retried, with the last attempt that MaxRetries
      allows, or cancelled, and for no other reason. */
  lemma LoopEndsIff(c: Config, w: World, r: Result, calls: nat, sleeps: seq<int>)
    requires c.maxRetries >= 0 && Trace(c, w, r, calls, sleeps)
    ensures forall i: nat :: i < calls - 1 ==> GoesOn(c, w, i) && DelayAfter(c, w, i) == Some(sleeps[i])
    ensures var a := w.attempt(calls - 1);
            && !GoesOn(c, w, calls - 1)
            && (r == Succeeded <==> a.Success?)
            && (r.NonRetryable? <==> a.Failure? && !MayRetry(c, a, calls - 1))
            && (r.NonRetryable? ==> r.attempts == calls)
            && (r.Exhausted? <==> a.Failure? && MayRetry(c, a, calls - 1) && calls - 1 == c.maxRetries)
            && (r == Cancelled <==> a.Failure? && MayRetry(c, a, calls - 1) && calls - 1 != c.maxRetries)
            && (r == Cancelled ==> w.cancelled(calls - 1))
  {
    forall i: nat | i < calls - 1
      ensures GoesOn(c, w, i)
    {
      assert Verdict(c, w, i) == None;
      RetriedIff(c, w, i);
    }
    if w.attempt(calls - 1).Failure? {
      RetriedIff(c, w, calls - 1);
    }
  }

  /** The error reported is the last one, with its status and, unless it is replaced by a fixed text, its
      own message. */
  lemma ReportedErrorIsTheLast(c: Config, w: World, r: Result, calls: nat, sleeps: seq<int>)
    requires c.maxRetries >= 0 && Trace(c, w, r, calls, sleeps) && (r.NonRetryable? || r.Exhausted?)
    ensures var a := w.attempt(calls - 1);
            && a.Failure?
            && (IsNetwork(a) ==> r.error.status == 0 && r.error.message == a.message)
            && (!IsNetwork(a) ==> r.error.status == StatusOf(a))
            && (!IsNetwork(a) && StatusOf(a) !in {401, 403, 404, 429} ==> r.error.message == a.message)
            && (!IsNetwork(a) && StatusOf(a) in {403, 429} ==> r.error.message == "GitHub API rate limit exceeded")
            && (!IsNetwork(a) && StatusOf(a) == 401 ==> r.error.message == "GitHub API authentication failed")
            && (!IsNetwork(a) && StatusOf(a) == 404 ==> r.error.message == "GitHub API resource not found")
  {
  }

  /** Every attempt that was followed by another one failed with a kind whose own limit was not
      yet reached, and was neither an authentication nor a not-found error. */
  lemma RetriedWithinOwnLimit(c: Config, w: World, r: Result, calls: nat, sleeps: seq<int>, i: nat)
    requires c.maxRetries >= 0 && Trace(c, w, r, calls, sleeps) && i < calls - 1
    ensures w.attempt(i).Failure? && w.Error(i).kind !in {Auth, NotFound}
    ensures i < c.Limit(w.Error(i).kind) && i < c.maxRetries
  {
    assert Verdict(c, w, i) == None;
    BelowMaxRetries(c, w, r, calls, sleeps, i);
  }

  /** At most one call more than the limit of every kind of error that was retried, and than
      MaxRetries. */
  lemma CallsAreBounded(c: Config, w: World, r: Result, calls: nat, sleeps: seq<int>, limit: int)
    requires c.maxRetries >= 0 && Trace(c, w, r, calls, sleeps)
    requires forall i: nat :: i < calls - 1 && w.attempt(i).Failure? ==> c.Limit(w.Error(i).kind) <= limit
    ensures calls == 1 || calls <= 1 + limit
    ensures calls <= 1 + c.maxRetries
  {
    if calls > 1 {
      RetriedWithinOwnLimit(c, w, r, calls, sleeps, calls - 2);
    }
  }

  lemma AuthAndNotFoundEndTheLoop(c: Config, w: World, r: Result, calls: nat, sleeps: seq<int>, i: nat)
    requires c.maxRetries >= 0 && Trace(c, w, r, calls, sleeps) && i < calls
    requires w.attempt(i).Failure? && w.Error(i).kind in {Auth, NotFound}
    ensures i == calls - 1 && r == NonRetryable(calls, w.Error(i))
  {
    if i < calls - 1 {
      RetriedWithinOwnLimit(c, w, r, calls, sleeps, i);
    }
  }

  /** The whole classification: text first, then the status, and General for everything else. */
  lemma KindsIff(a: Attempt)
    requires a.Failure?
    ensures var network := a.isNetError || LooksLikeNetwork(a.message);
            var status := if a.response.Some? then a.response.value.status else 0;
            && (Classify(a).kind == Network <==> network)
            && (Classify(a).kind == RateLimit <==> !network && status in {403, 429})
            && (Classify(a).kind == Auth <==> !network && status == 401)
            && (Classify(a).kind == NotFound <==> !network && status == 404)
            && (Classify(a).reset.Some? ==> Classify(a).kind == RateLimit)
  {
  }

  /** A 401 or 404 response is classified as such, and so never retried, exactly if the text of the
      error does not read like a network problem. */
  lemma FinalStatusIsRecognisedIff(a: Attempt)
    requires a.Failure? && !a.isNetError && a.response.Some? && a.response.value.status in {401, 404}
    ensures Classify(a).kind in {Auth, NotFound} <==> !LooksLikeNetwork(a.message)
    ensures LooksLikeNetwork(a.message) ==> Classify(a).kind == Network
  {
    KindsIff(a);
  }

  /** The retry of a rate-limited request comes before the announced reset only if the reset lies
      beyond the rate-limit cap; without jitter, exactly then.  Otherwise it is at the reset, or, if
      the reset has passed, no further off than the cap and its jitter. */
  lemma RetriesBeforeResetIff(c: Config, e: GitHubError, attempt: nat, now: int, u: real)
    requires c.Sane() && 0.0 <= u < 1.0
    requires e.kind == RateLimit && e.reset.Some? && attempt < c.rateLimitMaxRetries
    ensures var delay, tooFar := ShouldRetry(c, e, attempt, now, u), e.reset.value > now + c.rateLimitMaxDelay;
            && delay.Some?
            && (now + delay.value < e.reset.value ==> tooFar)
            && (!c.jitter ==> (now + delay.value < e.reset.value <==> tooFar))
            && (!tooFar && e.reset.value > now ==> now + delay.value == e.reset.value)
            && delay.value as real <= 1.1 * c.rateLimitMaxDelay as real
  {
    assert c.Base(RateLimit) >= 0 && c.Cap(RateLimit) >= 0;
    DelayIsBounded(c.rateLimitBaseDelay, c.rateLimitMaxDelay, c.multiplier, c.jitter, attempt, u);
  }

  function Sum(s: seq<int>): int {
    if s == [] then 0 else Sum(s[..|s| - 1]) + s[|s| - 1]
  }

  lemma SleepIsBounded(c: Config, w: World, r: Result, calls: nat, sleeps: seq<int>, i: nat)
    requires Trace(c, w, r, calls, sleeps) && c.Sane() && w.Fair() && i < |sleeps|
    ensures 0 <= sleeps[i]
    ensures sleeps[i] as real <= 1.1 * c.LargestCap() as real
    ensures !c.jitter ==> sleeps[i] <= c.LargestCap()
  {
    assert Verdict(c, w, i) == None && DelayAfter(c, w, i) == Some(sleeps[i]);
    var kind := w.Error(i).kind;
    assert c.Base(kind) >= 0 && c.Cap(kind) >= 0 && c.Cap(kind) <= c.LargestCap();
    DelayIsBounded(c.Base(kind), c.Cap(kind), c.multiplier, c.jitter, i, w.jitter(i));
  }

  ghost predicate AllAtMost(s: seq<int>, each: real) {
    forall i :: 0 <= i < |s| ==> s[i] as real <= each
  }

  lemma {:induction false} SumIsBounded(s: seq<int>, each: real)
    requires AllAtMost(s, each)
    ensures Sum(s) as real <= |s| as real * each
  {
    if s == [] {
    } else {
      var n := |s| - 1;
      SumIsBounded(s[..n], each);
      assert |s| as real * each == n as real * each + each;
    }
  }

  lemma SleepsAreBounded(c: Config, w: World, r: Result, calls: nat, sleeps: seq<int>)
    requires Trace(c, w, r, calls, sleeps) && c.Sane() && w.Fair()
    ensures AllAtMost(sleeps, 1.1 * c.LargestCap() as real)
  {
    forall i | 0 <= i < |sleeps|
      ensures sleeps[i] as real <= 1.1 * c.LargestCap() as real
    {
      SleepIsBounded(c, w, r, calls, sleeps, i);
    }
  }

  /** The whole run sleeps at most 1.1 times the largest cap for each retry. */
  lemma TotalSleepIsBounded(c: Config, w: World, r: Result, calls: nat, sleeps: seq<int>, each: real)
    requires Trace(c, w, r, calls, sleeps) && c.Sane() && w.Fair()
    requires each == 1.1 * c.LargestCap() as real
    ensures |sleeps| == calls - 1
    ensures Sum(sleeps) as real <= |sleeps| as real * each
  {
    SleepsAreBounded(c, w, r, calls, sleeps);
    SumIsBounded(sleeps, each);
  }

  // ---- The plain retriers -----------------------------------------------------------------

  datatype PlainResult = Done | GaveUp(calls: nat) | Stopped | Fatal(calls: nat) | Unreached

  /** Retrier.DoWithRetryable and its linear variant: up to MaxRetries + 1 calls. */
  method DoWithRetryable(maxRetries: int, ok: nat -> bool, retryable: nat -> bool, cancelled: nat -> bool)
    returns (r: PlainResult, calls: nat)
    ensures r == Unreached <==> maxRetries < 0
    ensures maxRetries >= 0 ==>
              var last := calls - 1;
              && 1 <= calls <= maxRetries + 1
              && (forall i: nat :: i < last ==> !ok(i) && retryable(i) && !cancelled(i))
              && (r == Done <==> ok(last))
              && (r.Fatal? <==> !ok(last) && !retryable(last)) && (r.Fatal? ==> r.calls == calls)
              && (r.GaveUp? <==> !ok(last) && retryable(last) && last == maxRetries) && (r.GaveUp? ==> r.calls == calls)
              && (r == Stopped <==> !ok(last) && retryable(last) && last != maxRetries)
              && (r == Stopped ==> cancelled(last))
  {
    calls := 0;
    while calls <= maxRetries
      invariant calls == 0 || calls <= maxRetries
      invariant forall i: nat :: i < calls ==> !ok(i) && retryable(i) && !cancelled(i)
      decreases maxRetries - calls
    {
      var attempt := calls;
      calls := calls + 1;
      if ok(attempt) {
        return Done, calls;
      }
      if !retryable(attempt) {
        return Fatal(attempt + 1), calls;
      }
      if attempt == maxRetries {
        return GaveUp(attempt + 1), calls;
      }
      if cancelled(attempt) {
        return Stopped, calls;
      }
    }
    r := Unreached;
  }

  /** RetryWithBackoff of the retry service: the same number means calls here, not retries, and with
      zero or less the operation is reported as failed without having been called. */
  method RetryWithBackoff(maxRetries: int, ok: nat -> bool, cancelled: nat -> bool) returns (r: PlainResult, calls: nat)
    ensures r == Done <==> calls >= 1 && ok(calls - 1)
    ensures forall i: nat :: i + 1 < calls ==> !ok(i)
    ensures r.GaveUp? ==> calls == if maxRetries > 0 then maxRetries else 0
    ensures calls <= if maxRetries > 0 then maxRetries else 0
    ensures r in {Done, Stopped, GaveUp(calls)}
    // The context is looked at before each call and again while sleeping after it.
    ensures forall i: nat :: i + 1 < 2 * calls ==> !cancelled(i)
    ensures r == Stopped ==> cancelled(2 * calls) || (calls >= 1 && cancelled(2 * calls - 1))
  {
    calls := 0;
    var attempt: nat := 0;
    while attempt < maxRetries
      invariant calls == attempt && (attempt == 0 || attempt < maxRetries)
      invariant forall i: nat :: i < attempt ==> !ok(i)
      invariant forall i: nat :: i < 2 * attempt ==> !cancelled(i)
    {
      if cancelled(2 * attempt) {
        return Stopped, calls;
      }
      calls := calls + 1;
      if ok(attempt) {
        return Done, calls;
      }
      if attempt == maxRetries - 1 {
        break;
      }
      if cancelled(2 * attempt + 1) {
        return Stopped, calls;
      }
      attempt := attempt + 1;
    }
    r := GaveUp(calls);
  }
}
