/** The bounded retry loop of vshttp/do.go over an arbitrary trace of exchanges. */
module Retry {
  import opened Int64
  import opened Options

  function Pow2(k: nat): (p: nat)
    ensures p > 0
  {
    if k == 0 then 1 else 2 * Pow2(k - 1)
  }

  // ----- policy -----

  /** Delays are in nanoseconds. */
  datatype Policy = Policy(maxAttempts: int, baseDelay: int, maxDelay: int, maxWait: int)

  const MILLISECOND: int := 1_000_000
  const SECOND: int := 1_000_000_000

  const DEFAULT_POLICY := Policy(3, 300 * MILLISECOND, 2 * SECOND, 10 * SECOND)

  /** Unusable fields fall back to the default policy, except that the attempts fall back to one. */
  function Normalize(p: Policy): (q: Policy)
    ensures q.maxAttempts >= 1 && q.baseDelay > 0 && q.maxDelay > 0 && q.maxWait > 0
    // a usable field is kept whatever the others are
    ensures (p.maxAttempts >= 1 <==> q.maxAttempts == p.maxAttempts)
    ensures (p.baseDelay > 0 <==> q.baseDelay == p.baseDelay)
    ensures (p.maxDelay > 0 <==> q.maxDelay == p.maxDelay) && (p.maxWait > 0 <==> q.maxWait == p.maxWait)
    ensures q.maxAttempts in {p.maxAttempts, 1} && q.baseDelay in {p.baseDelay, DEFAULT_POLICY.baseDelay}
    ensures q.maxDelay in {p.maxDelay, DEFAULT_POLICY.maxDelay} && q.maxWait in {p.maxWait, DEFAULT_POLICY.maxWait}
  {
    Policy(if p.maxAttempts < 1 then 1 else p.maxAttempts,
           if p.baseDelay <= 0 then 300 * MILLISECOND else p.baseDelay,
           if p.maxDelay <= 0 then 2 * SECOND else p.maxDelay,
           if p.maxWait <= 0 then 10 * SECOND else p.maxWait)
  }

  // ----- errors and responses -----

  datatype Kind = Network | Timeout | Canceled | DNS | TLS | HTTPStatus | RateLimit | Unauthorized | Forbidden
                | NotFound | ServerError | ResponseTooLarge | BodyRead | InvalidJSON | InvalidResponse

  datatype APIError = APIError(statusCode: int, kind: Kind, retryable: bool, retryAfter: int, bodySize: nat, limit: int)

  /** A body: the bytes the connection delivers, and whether it then breaks instead of ending. */
  datatype Stream = Stream(bytes: seq<bv8>, breaks: bool)

  /** `retryAfter` is the parsed Retry-After header, any duration. */
  datatype Response = Response(status: int, retryAfter: int, stream: Stream)

  predicate RetryableStatus(code: int) { code == 429 || code == 502 || code == 503 || code == 504 }

  function StatusError(r: Response): APIError {
    var kind :=
      if r.status == 401 then Unauthorized
      else if r.status == 403 then Forbidden
      else if r.status == 404 then NotFound
      else if r.status == 408 then Timeout
      else if r.status == 429 then RateLimit
      else if r.status >= 500 then ServerError
      else HTTPStatus;
    APIError(r.status, kind, r.status == 408 || RetryableStatus(r.status),
             if r.status == 429 then r.retryAfter else 0, 0, 0)
  }

  method BuildStatusError(r: Response) returns (e: APIError)
    ensures e == StatusError(r)
  {
    e := APIError(r.status, HTTPStatus, false, 0, 0, 0);
    if r.status == 401 {
      e := e.(kind := Unauthorized);
    } else if r.status == 403 {
      e := e.(kind := Forbidden);
    } else if r.status == 404 {
      e := e.(kind := NotFound);
    } else if r.status == 408 {
      e := e.(kind := Timeout);
      e := e.(retryable := true);
    } else if r.status == 429 {
      e := e.(kind := RateLimit);
      e := e.(retryable := true);
      e := e.(retryAfter := r.retryAfter);
    } else if r.status >= 500 {
      e := e.(kind := ServerError);
      e := e.(retryable := RetryableStatus(r.status));
    }
  }

  // ----- body -----

  datatype Body = Read(bytes: seq<bv8>) | Unread(error: APIError)

  /** io.ReadAll of the stream limited to `maxBody + 1` bytes, then the size check. */
  function ReadBody(r: Response, maxBody: int): Body {
    var limit := Wrap(maxBody + 1);
    var n := Max(0, Min(limit, |r.stream.bytes|));
    if n < limit && r.stream.breaks then Unread(APIError(r.status, BodyRead, true, 0, n, maxBody))
    else if n > maxBody then Unread(APIError(r.status, ResponseTooLarge, false, 0, n, maxBody))
    else Read(r.stream.bytes[..n])
  }

  /** A body is returned only whole and within the limit; the reason of a failure is exact. */
  lemma ReadBodyIsExact(r: Response, maxBody: int)
    requires -MAX_INT - 1 <= maxBody < MAX_INT
    ensures ReadBody(r, maxBody).Read? <==> |r.stream.bytes| <= maxBody && !r.stream.breaks
    ensures ReadBody(r, maxBody).Read? ==> ReadBody(r, maxBody).bytes == r.stream.bytes
    ensures ReadBody(r, maxBody).Unread? ==>
              (ReadBody(r, maxBody).error.kind == ResponseTooLarge <==> |r.stream.bytes| > maxBody)
    ensures ReadBody(r, maxBody).Unread? ==>
              (ReadBody(r, maxBody).error.retryable <==> |r.stream.bytes| <= maxBody)
  {
  }

  /** At the largest limit the extra byte overflows and every body is read as empty. */
  lemma ReadBodyOverflows(r: Response)
    ensures ReadBody(r, MAX_INT) == Read([])
  {
  }

  // ----- backoff -----

  function CappedDelay(p: Policy, attempt: nat): int { Min(Wrap(p.baseDelay * Pow2(attempt)), p.maxDelay) }

  /** The wait before a retry; None when the random draw has an empty range, which panics. */
  function Backoff(p: Policy, attempt: nat, hint: int, random: nat): Option<int> {
    var delay := CappedDelay(p, attempt);
    if delay < 2 then None
    else if hint > 0 then Some(Min(hint, p.maxWait))
    else Some(Wrap(delay - delay / 4 + random % (delay / 2)))
  }

  method ComputeBackoff(p: Policy, attempt: nat, hint: int, random: nat) returns (wait: Option<int>)
    ensures wait == Backoff(p, attempt, hint, random)
  {
    var delay := Wrap(p.baseDelay * Pow2(attempt));
    if delay > p.maxDelay {
      delay := p.maxDelay;
    }
    if delay < 2 { return None; }
    var jitter := random % (delay / 2);
    delay := Wrap(delay - delay / 4 + jitter);
    if hint > 0 {
      delay := Min(hint, p.maxWait);
    }
    wait := Some(delay);
  }

  // ----- the loop -----

  /** What one request meets: no response, or a response with its body stream. */
  datatype Exchange = NoResponse(kind: Kind, retryable: bool) | Answered(response: Response)

  /** Everything outside the loop, attempt by attempt. */
  datatype World = World(exchange: nat -> Exchange,
                         doneAfter: nat -> bool,     // the context is done after the exchange
                         doneInSleep: nat -> bool,   // the context ends the wait before the attempt
                         random: nat -> nat)

  datatype Outcome = Returned(response: Response, body: seq<bv8>) | Failed(error: APIError) | Panicked

  datatype Verdict = Stop(outcome: Outcome) | Again(error: APIError)

  const CANCELED := APIError(0, Canceled, false, 0, 0, 0)

  /** What attempt `k` of at most `limit` decides. */
  function Judge(w: World, maxBody: int, limit: nat, k: nat): Verdict {
    match w.exchange(k)
    case NoResponse(kind, retryable) =>
      var e := APIError(0, kind, retryable, 0, 0, 0);
      if w.doneAfter(k) || !retryable then Stop(Failed(e)) else Again(e)
    case Answered(r) =>
      match ReadBody(r, maxBody)
      case Unread(e) => if w.doneAfter(k) || !e.retryable then Stop(Failed(e)) else Again(e)
      case Read(body) =>
        if RetryableStatus(r.status) && k + 1 < limit then Again(StatusError(r)) else Stop(Returned(r, body))
  }

  function Limit(p: Policy, idempotent: bool): (n: nat)
    ensures n >= 1
  {
    if idempotent then Normalize(p).maxAttempts else 1
  }

  /** The wait before attempt `k`, given the error of the attempt before. */
  function WaitBefore(w: World, p: Policy, k: nat, error: APIError): Option<int>
    requires k > 0
  {
    Backoff(Normalize(p), k - 1, error.retryAfter, w.random(k))
  }

  /** Attempt `k` is to be retried, after the given wait. */
  ghost predicate Waited(w: World, p: Policy, limit: nat, maxBody: int, k: nat, wait: int) {
    var v := Judge(w, maxBody, limit, k);
    v.Again? && WaitBefore(w, p, k + 1, v.error) == Some(wait)
  }

  /** `sent` requests are out, all but the last to be retried, every wait was its backoff and passed. */
  ghost predicate Underway(w: World, p: Policy, limit: nat, maxBody: int, sent: nat, waits: seq<int>) {
    && (forall k :: 0 <= k < sent - 1 ==> Judge(w, maxBody, limit, k).Again?)
    && (forall k :: 0 <= k < |waits| ==> Waited(w, p, limit, maxBody, k, waits[k]))
    && (forall k :: 0 < k < sent ==> !w.doneInSleep(k))
  }

  /** How the run ends after its last request, `last` being what that request decided. */
  ghost predicate Ends(w: World, p: Policy, limit: nat, last: Verdict, outcome: Outcome, sent: nat, waits: seq<int>)
    requires sent > 0
  {
    match last
    case Stop(o) => outcome == o && |waits| == sent - 1
    case Again(e) =>
      if sent == limit then outcome == Failed(e) && |waits| == sent - 1
      else if |waits| == sent - 1 then outcome == Panicked && WaitBefore(w, p, sent, e) == None
      else |waits| == sent && outcome == Failed(CANCELED) && w.doneInSleep(sent)
  }

  /** The trace specification of Do. */
  ghost predicate IsRun(w: World, p: Policy, idempotent: bool, maxBody: int,
                        outcome: Outcome, sent: nat, waits: seq<int>)
  {
    var limit := Limit(p, idempotent);
    && 1 <= sent <= limit
    && Underway(w, p, limit, maxBody, sent, waits)
    && Ends(w, p, limit, Judge(w, maxBody, limit, sent - 1), outcome, sent, waits)
  }

  /** The body of the loop: one exchange and what it leads to. */
  method Attempt(w: World, maxBody: int, attempts: nat, attempt: nat) returns (v: Verdict)
    ensures v == Judge(w, maxBody, attempts, attempt)
  {
    match w.exchange(attempt)
    case NoResponse(kind, retryable) =>
      var e := APIError(0, kind, retryable, 0, 0, 0);
      if w.doneAfter(attempt) || !e.retryable { return Stop(Failed(e)); }
      return Again(e);
    case Answered(r) =>
      var body := ReadBody(r, maxBody);
      if body.Unread? {
        if w.doneAfter(attempt) || !body.error.retryable { return Stop(Failed(body.error)); }
        return Again(body.error);
      }
      if RetryableStatus(r.status) && attempt + 1 < attempts {
        var e := BuildStatusError(r);
        return Again(e);
      }
      return Stop(Returned(r, body.bytes));
  }

  lemma WaitAdded(w: World, p: Policy, limit: nat, maxBody: int, sent: nat, waits: seq<int>, wait: int)
    requires Underway(w, p, limit, maxBody, sent, waits) && Waited(w, p, limit, maxBody, |waits|, wait)
    ensures Underway(w, p, limit, maxBody, sent, waits + [wait])
  {
  }

  lemma RequestAdded(w: World, p: Policy, limit: nat, maxBody: int, sent: nat, waits: seq<int>)
    requires Underway(w, p, limit, maxBody, sent, waits)
    requires sent > 0 ==> Judge(w, maxBody, limit, sent - 1).Again? && !w.doneInSleep(sent)
    ensures Underway(w, p, limit, maxBody, sent + 1, waits)
  {
  }

  /** Do: retries idempotent requests and leaves everything else to the first attempt. */
  method Do(w: World, policy: Policy, idempotent: bool, maxBody: int)
    returns (outcome: Outcome, sent: nat, waits: seq<int>)
    ensures IsRun(w, policy, idempotent, maxBody, outcome, sent, waits)
    // requests go out up to the first conclusive attempt or the limit, fewer only when the context
    // ends a wait or the draw panics; a retryable status is returned only by the last allowed attempt
    ensures var limit := Limit(policy, idempotent);
            && 1 <= sent <= limit
            && (forall k :: 0 <= k < sent - 1 ==> Judge(w, maxBody, limit, k).Again?)
            && (sent == limit || Judge(w, maxBody, limit, sent - 1).Stop? ||
                outcome == Panicked || (outcome == Failed(CANCELED) && w.doneInSleep(sent)))
    ensures !idempotent ==> sent == 1 && waits == [] && outcome != Panicked
    ensures outcome.Returned? ==>
              && w.exchange(sent - 1) == Answered(outcome.response)
              && ReadBody(outcome.response, maxBody) == Read(outcome.body)
              && (outcome.response.status in {429, 502, 503, 504} ==> sent == Limit(policy, idempotent))
  {
    var p := Normalize(policy);
    var attempts := 1;
    if idempotent {
      attempts := p.maxAttempts;
    }
    var lastErr: Option<APIError> := None;
    sent, waits := 0, [];
    for attempt := 0 to attempts
      invariant attempts == Limit(policy, idempotent)
      invariant sent == attempt && |waits| == if attempt > 0 then attempt - 1 else 0
      invariant Underway(w, policy, attempts, maxBody, sent, waits)
      invariant attempt > 0 ==> lastErr.Some? && Judge(w, maxBody, attempts, attempt - 1) == Again(lastErr.value)
    {
      if attempt > 0 {
        var wait := ComputeBackoff(p, attempt - 1, lastErr.value.retryAfter, w.random(attempt));
        if wait.None? { return Panicked, sent, waits; }
        WaitAdded(w, policy, attempts, maxBody, sent, waits, wait.value);
        waits := waits + [wait.value];
        if w.doneInSleep(attempt) {
          return Failed(CANCELED), sent, waits;
        }
      }
      RequestAdded(w, policy, attempts, maxBody, sent, waits);
      sent := sent + 1;
      var verdict := Attempt(w, maxBody, attempts, attempt);
      match verdict
      case Stop(o) => return o, sent, waits;
      case Again(e) => lastErr := Some(e);
    }
    outcome := Failed(lastErr.value);
  }

  /** FetchJSON: the status decides before the body is decoded, and decoding is left to the caller. */
  datatype Fetched = Decode(body: seq<bv8>) | FetchFailed(error: APIError) | FetchPanicked

  /**
   Only a whole 2xx body is decoded; a response still 429, 502, 503 or 504 after the last attempt
   becomes a retryable error of its kind that carries the hint of a 429.
   */
  method FetchJSON(w: World, policy: Policy, idempotent: bool, maxBody: int)
    returns (fetched: Fetched, sent: nat)
    ensures 1 <= sent <= Limit(policy, idempotent)
    ensures fetched.Decode? <==>
              var x := w.exchange(sent - 1);
              && x.Answered? && 200 <= x.response.status < 300 && ReadBody(x.response, maxBody).Read?
    ensures fetched.Decode? ==> ReadBody(w.exchange(sent - 1).response, maxBody) == Read(fetched.body)
    ensures fetched.Decode? && -MAX_INT - 1 <= maxBody < MAX_INT ==>
              var stream := w.exchange(sent - 1).response.stream;
              fetched.body == stream.bytes && !stream.breaks && |stream.bytes| <= maxBody
    ensures var x := w.exchange(sent - 1);
            && (x.Answered? && ReadBody(x.response, maxBody).Read? && !(200 <= x.response.status < 300))
            && (sent == Limit(policy, idempotent) || x.response.status !in {429, 502, 503, 504}) ==>
              fetched == FetchFailed(StatusError(x.response))
    ensures var x := w.exchange(sent - 1);
            && sent == Limit(policy, idempotent) && x.Answered? && x.response.status in {429, 502, 503, 504}
            && ReadBody(x.response, maxBody).Read? ==>
              && fetched.FetchFailed? && fetched.error.retryable && fetched.error.statusCode == x.response.status
              && fetched.error.kind == (if x.response.status == 429 then RateLimit else ServerError)
              && fetched.error.retryAfter == (if x.response.status == 429 then x.response.retryAfter else 0)
  {
    var outcome, n, waits := Do(w, policy, idempotent, maxBody);
    sent := n;
    match outcome
    case Failed(e) => fetched := FetchFailed(e);
    case Panicked => fetched := FetchPanicked;
    case Returned(r, body) =>
      if 200 <= r.status < 300 {
        fetched := Decode(body);
      } else {
        var e := BuildStatusError(r);
        fetched := FetchFailed(e);
      }
  }

  // ----- what a run promises -----

  /** The trace specification leaves nothing open: it has one run. */
  lemma RunIsDetermined(w: World, p: Policy, idempotent: bool, maxBody: int,
                        o1: Outcome, s1: nat, w1: seq<int>, o2: Outcome, s2: nat, w2: seq<int>)
    requires IsRun(w, p, idempotent, maxBody, o1, s1, w1)
    requires IsRun(w, p, idempotent, maxBody, o2, s2, w2)
    ensures o1 == o2 && s1 == s2 && w1 == w2
  {
    SameLength(w, p, idempotent, maxBody, o1, s1, w1, o2, s2, w2);
    SameLength(w, p, idempotent, maxBody, o2, s2, w2, o1, s1, w1);
    forall k | 0 <= k < |w1| ensures w1[k] == w2[k] {
      assert Waited(w, p, Limit(p, idempotent), maxBody, k, w1[k]);
      assert Waited(w, p, Limit(p, idempotent), maxBody, k, w2[k]);
    }
  }

  lemma SameLength(w: World, p: Policy, idempotent: bool, maxBody: int,
                   o1: Outcome, s1: nat, w1: seq<int>, o2: Outcome, s2: nat, w2: seq<int>)
    requires IsRun(w, p, idempotent, maxBody, o1, s1, w1)
    requires IsRun(w, p, idempotent, maxBody, o2, s2, w2)
    ensures s1 >= s2 && (s1 == s2 ==> |w1| >= |w2|)
  {
    if s1 <= |w2| {
      assert Waited(w, p, Limit(p, idempotent), maxBody, s1 - 1, w2[s1 - 1]);
    }
  }

  // ----- the run in terms of the exchanges -----

  /** What must be met to try again: a passing failure, or a readable answer whose status says so. */
  predicate AsksRetry(w: World, maxBody: int, k: nat) {
    match w.exchange(k)
    case NoResponse(_, retryable) => retryable && !w.doneAfter(k)
    case Answered(r) =>
      |r.stream.bytes| <= maxBody && if r.stream.breaks then !w.doneAfter(k) else r.status in {429, 502, 503, 504}
  }

  /**
   Every request before the last met what asks for a retry. A run that stops short of its limit stops
   at the first exchange that does not ask for one, or else because of a panic or a cut sleep.
   */
  lemma RetriesByExchange(w: World, p: Policy, idempotent: bool, maxBody: int,
                          outcome: Outcome, sent: nat, waits: seq<int>)
    requires IsRun(w, p, idempotent, maxBody, outcome, sent, waits) && -MAX_INT - 1 <= maxBody < MAX_INT
    ensures forall k :: 0 <= k < sent - 1 ==> AsksRetry(w, maxBody, k)
    ensures var limit := if idempotent then Max(1, p.maxAttempts) else 1;
            && 1 <= sent <= limit
            && (sent < limit && AsksRetry(w, maxBody, sent - 1) ==>
                  outcome == Panicked || (outcome == Failed(CANCELED) && w.doneInSleep(sent) && |waits| == sent))
            && (sent < limit && !AsksRetry(w, maxBody, sent - 1) ==> outcome != Panicked && |waits| == sent - 1)
  {
    forall k: nat | k + 1 < Limit(p, idempotent)
      ensures Judge(w, maxBody, Limit(p, idempotent), k).Again? <==> AsksRetry(w, maxBody, k)
    {
      JudgedByExchange(w, maxBody, Limit(p, idempotent), k);
    }
  }

  lemma JudgedByExchange(w: World, maxBody: int, limit: nat, k: nat)
    requires k + 1 < limit && -MAX_INT - 1 <= maxBody < MAX_INT
    ensures Judge(w, maxBody, limit, k).Again? <==> AsksRetry(w, maxBody, k)
  {
    match w.exchange(k)
    case NoResponse(_, _) =>
    case Answered(r) => ReadBodyIsExact(r, maxBody);
  }

  /** A run that is neither cut nor panics ends with its last exchange: the whole answer, or its error. */
  lemma OutcomeByExchange(w: World, p: Policy, idempotent: bool, maxBody: int,
                          outcome: Outcome, sent: nat, waits: seq<int>)
    requires IsRun(w, p, idempotent, maxBody, outcome, sent, waits) && -MAX_INT - 1 <= maxBody < MAX_INT
    ensures outcome.Panicked? ==> |waits| == sent - 1
    ensures |waits| == sent ==> outcome == Failed(CANCELED) && w.doneInSleep(sent)
    ensures |waits| < sent && !outcome.Panicked? ==>
              outcome ==
              match w.exchange(sent - 1)
              case NoResponse(kind, retryable) => Failed(APIError(0, kind, retryable, 0, 0, 0))
              case Answered(r) =>
                var size := |r.stream.bytes|;
                if size > maxBody then
                  Failed(APIError(r.status, ResponseTooLarge, false, 0, Max(0, maxBody + 1), maxBody))
                else if r.stream.breaks then Failed(APIError(r.status, BodyRead, true, 0, size, maxBody))
                else Returned(r, r.stream.bytes)
  {
    match w.exchange(sent - 1)
    case NoResponse(_, _) =>
    case Answered(r) =>
      ReadBodyIsExact(r, maxBody);
      WrapInRange(maxBody + 1);
  }

  /** Do retries 429, 502, 503 and 504; the Retryable flag of a status error says so too, and of 408. */
  lemma RetryableFlag(r: Response, w: World, maxBody: int, limit: nat, k: nat)
    requires w.exchange(k) == Answered(r) && ReadBody(r, maxBody).Read?
    ensures Judge(w, maxBody, limit, k).Again? <==> r.status in {429, 502, 503, 504} && k + 1 < limit
    ensures StatusError(r).retryable <==> r.status in {408, 429, 502, 503, 504}
  {
  }

  /** Which error kinds the statuses have; only a 429 carries a hint. */
  lemma StatusKinds(r: Response)
    ensures var e := StatusError(r);
            && e.statusCode == r.status
            && (e.kind == Unauthorized <==> r.status == 401) && (e.kind == Forbidden <==> r.status == 403)
            && (e.kind == NotFound <==> r.status == 404) && (e.kind == Timeout <==> r.status == 408)
            && (e.kind == RateLimit <==> r.status == 429) && (e.kind == ServerError <==> r.status >= 500)
            && (e.kind == HTTPStatus <==> r.status !in {401, 403, 404, 408, 429} && r.status < 500)
            && e.retryAfter == (if r.status == 429 then r.retryAfter else 0)
  {
  }

  // ----- delays -----

  /** The delays of a whole run stay inside int64 and leave room for the jitter. */
  ghost predicate DelaysFit(p: Policy, limit: nat) {
    var q := Normalize(p);
    && q.baseDelay >= 2 && q.maxDelay >= 2 && 5 * q.maxDelay <= 4 * MAX_INT
    && (limit >= 2 ==> q.baseDelay * Pow2(limit - 2) <= MAX_INT)
  }

  lemma {:induction false} Pow2Monotone(j: nat, k: nat)
    requires j <= k
    ensures Pow2(j) <= Pow2(k)
  {
    if j < k { Pow2Monotone(j, k - 1); }
  }

  lemma TimesMonotone(a: int, x: int, y: int)
    requires a >= 0 && x <= y
    ensures a * x <= a * y
  {
  }

  lemma JitterBounds(d: int, random: nat)
    requires 2 <= d
    ensures 3 * d <= 4 * (d - d / 4 + random % (d / 2)) < 5 * d
  {
    var jitter := random % (d / 2);
    assert 0 <= jitter < d / 2;
    assert d == 4 * (d / 4) + d % 4 && d == 2 * (d / 2) + d % 2;
  }

  lemma BackoffBounds(p: Policy, attempt: nat, hint: int, random: nat)
    requires p.baseDelay >= 2 && p.maxDelay >= 2 && 5 * p.maxDelay <= 4 * MAX_INT
    requires p.baseDelay * Pow2(attempt) <= MAX_INT
    ensures Backoff(p, attempt, hint, random).Some?
    ensures var wait := Backoff(p, attempt, hint, random).value;
            var delay := Min(p.baseDelay * Pow2(attempt), p.maxDelay);
            if hint > 0 then wait == Min(hint, p.maxWait) else 3 * delay <= 4 * wait < 5 * delay
  {
    TimesMonotone(p.baseDelay, 1, Pow2(attempt));
    WrapInRange(p.baseDelay * Pow2(attempt));
    var delay := CappedDelay(p, attempt);
    JitterBounds(delay, random);
    WrapInRange(delay - delay / 4 + random % (delay / 2));
  }

  lemma SmallModulo(r: nat, m: nat)
    requires r < m
    ensures r % m == r
  {
  }

  /** A draw within its range is added to three quarters of the delay. */
  lemma UnhintedWait(p: Policy, attempt: nat, draw: nat)
    requires p.baseDelay >= 2 && p.maxDelay >= 2 && 5 * p.maxDelay <= 4 * MAX_INT
    requires p.baseDelay * Pow2(attempt) <= MAX_INT
    requires draw < Min(p.baseDelay * Pow2(attempt), p.maxDelay) / 2
    ensures var delay := Min(p.baseDelay * Pow2(attempt), p.maxDelay);
            Backoff(p, attempt, 0, draw) == Some(delay - delay / 4 + draw)
  {
    TimesMonotone(p.baseDelay, 1, Pow2(attempt));
    WrapInRange(p.baseDelay * Pow2(attempt));
    var delay := CappedDelay(p, attempt);
    SmallModulo(draw, delay / 2);
    WrapInRange(delay - delay / 4 + draw);
  }

  /** Different draws give different waits, so that clients do not retry together. */
  lemma JitterSpreads(p: Policy, attempt: nat, first: nat, second: nat)
    requires p.baseDelay >= 2 && p.maxDelay >= 2 && 5 * p.maxDelay <= 4 * MAX_INT
    requires p.baseDelay * Pow2(attempt) <= MAX_INT
    requires first < second < Min(p.baseDelay * Pow2(attempt), p.maxDelay) / 2
    ensures Backoff(p, attempt, 0, first).Some? && Backoff(p, attempt, 0, second).Some?
    ensures Backoff(p, attempt, 0, second).value - Backoff(p, attempt, 0, first).value == second - first
  {
    UnhintedWait(p, attempt, first);
    UnhintedWait(p, attempt, second);
  }

  function Sum(s: seq<int>): int {
    if s == [] then 0 else Sum(s[..|s| - 1]) + s[|s| - 1]
  }

  lemma {:induction false} SumBound(s: seq<int>, bound: int)
    requires forall k :: 0 <= k < |s| ==> 4 * s[k] <= bound
    ensures 4 * Sum(s) <= bound * |s|
  {
    if s != [] {
      SumBound(s[..|s| - 1], bound);
      assert bound * |s| == bound * (|s| - 1) + bound;
    }
  }

  /** Every wait of a run: the hint of a 429 cut to MaxWait, or near its exponential step. */
  lemma WaitBounds(w: World, p: Policy, idempotent: bool, maxBody: int,
                   outcome: Outcome, sent: nat, waits: seq<int>, k: nat)
    requires IsRun(w, p, idempotent, maxBody, outcome, sent, waits) && DelaysFit(p, Limit(p, idempotent))
    requires k < |waits|
    ensures var q, x := Normalize(p), w.exchange(k);
            var hinted := x.Answered? && ReadBody(x.response, maxBody).Read? && x.response.status == 429;
            var delay := Min(q.baseDelay * Pow2(k), q.maxDelay);
            if hinted && x.response.retryAfter > 0 then waits[k] == Min(x.response.retryAfter, q.maxWait)
            else 3 * delay <= 4 * waits[k] < 5 * delay
    ensures 4 * waits[k] <= Max(4 * Normalize(p).maxWait, 5 * Normalize(p).maxDelay)
  {
    var q, limit := Normalize(p), Limit(p, idempotent);
    assert Waited(w, p, limit, maxBody, k, waits[k]) && k + 1 < limit;
    Pow2Monotone(k, limit - 2);
    TimesMonotone(q.baseDelay, Pow2(k), Pow2(limit - 2));
    HintByExchange(w, maxBody, limit, k);
    BackoffBounds(q, k, Judge(w, maxBody, limit, k).error.retryAfter, w.random(k + 1));
  }

  lemma HintByExchange(w: World, maxBody: int, limit: nat, k: nat)
    requires Judge(w, maxBody, limit, k).Again?
    ensures var x, hint := w.exchange(k), Judge(w, maxBody, limit, k).error.retryAfter;
            hint == if x.Answered? && ReadBody(x.response, maxBody).Read? && x.response.status == 429
                    then x.response.retryAfter else 0
  {
  }

  /** Without overflow a run never panics and waits at most (attempts - 1) times the larger cap. */
  lemma TotalWait(w: World, p: Policy, idempotent: bool, maxBody: int, outcome: Outcome, sent: nat, waits: seq<int>)
    requires IsRun(w, p, idempotent, maxBody, outcome, sent, waits) && DelaysFit(p, Limit(p, idempotent))
    ensures outcome != Panicked
    ensures |waits| <= Limit(p, idempotent) - 1
    ensures 4 * Sum(waits) <=
            Max(4 * Normalize(p).maxWait, 5 * Normalize(p).maxDelay) * (Limit(p, idempotent) - 1)
  {
    var q, limit := Normalize(p), Limit(p, idempotent);
    var bound := Max(4 * q.maxWait, 5 * q.maxDelay);
    forall k | 0 <= k < |waits| ensures 4 * waits[k] <= bound {
      WaitBounds(w, p, idempotent, maxBody, outcome, sent, waits, k);
    }
    SumBound(waits, bound);
    TimesMonotone(bound, |waits|, limit - 1);
    FittingDelaysAreSafe(p, limit);
    NeverPanics(w, p, idempotent, maxBody, outcome, sent, waits);
  }

  /** No retry within the limit has a capped delay below 2 ns. */
  ghost predicate SafeDelays(p: Policy, limit: nat) {
    forall k: nat :: k + 1 < limit ==> CappedDelay(Normalize(p), k) >= 2
  }

  lemma FittingDelaysAreSafe(p: Policy, limit: nat)
    requires DelaysFit(p, limit)
    ensures SafeDelays(p, limit)
  {
    var q := Normalize(p);
    forall k: nat | k + 1 < limit ensures CappedDelay(q, k) >= 2 {
      Pow2Monotone(k, limit - 2);
      TimesMonotone(q.baseDelay, Pow2(k), Pow2(limit - 2));
      TimesMonotone(q.baseDelay, 1, Pow2(k));
      WrapInRange(q.baseDelay * Pow2(k));
    }
  }

  /** The retry after attempt `k` is reached, and its capped delay is below 2 ns. */
  ghost predicate PanicsAt(w: World, p: Policy, limit: nat, maxBody: int, k: nat) {
    && k + 1 < limit && CappedDelay(Normalize(p), k) < 2
    && (forall j :: 0 <= j <= k ==> Judge(w, maxBody, limit, j).Again?)
    && (forall j :: 0 < j <= k ==> !w.doneInSleep(j))
  }

  /** A run panics exactly when it reaches a retry whose capped delay is below 2 ns. */
  lemma PanicIff(w: World, p: Policy, idempotent: bool, maxBody: int, outcome: Outcome, sent: nat, waits: seq<int>)
    requires IsRun(w, p, idempotent, maxBody, outcome, sent, waits)
    ensures outcome == Panicked <==> exists k: nat :: PanicsAt(w, p, Limit(p, idempotent), maxBody, k)
  {
    var limit := Limit(p, idempotent);
    forall k | 0 <= k < |waits| ensures CappedDelay(Normalize(p), k) >= 2 {
      assert Waited(w, p, limit, maxBody, k, waits[k]);
    }
    if outcome == Panicked { assert PanicsAt(w, p, limit, maxBody, sent - 1); }
  }

  /** With safe delays no run panics, whatever the exchanges, the hints and the draws are. */
  lemma NeverPanics(w: World, p: Policy, idempotent: bool, maxBody: int, outcome: Outcome, sent: nat, waits: seq<int>)
    requires IsRun(w, p, idempotent, maxBody, outcome, sent, waits) && SafeDelays(p, Limit(p, idempotent))
    ensures outcome != Panicked
  {
    PanicIff(w, p, idempotent, maxBody, outcome, sent, waits);
  }

  /** Every request fails and may be retried, and the context is never done. */
  const UNREACHABLE := World(k => NoResponse(Network, true), k => false, k => false, k => 0)

  /** Without safe delays some run panics: one that finds the server unreachable. */
  lemma UnsafeDelaysPanic(p: Policy, idempotent: bool, maxBody: int) returns (sent: nat, waits: seq<int>)
    requires !SafeDelays(p, Limit(p, idempotent))
    ensures IsRun(UNREACHABLE, p, idempotent, maxBody, Panicked, sent, waits)
  {
    var q, limit, w := Normalize(p), Limit(p, idempotent), UNREACHABLE;
    var k := FirstUnsafe(p, limit);
    sent := k + 1;
    waits := seq(k, j requires 0 <= j < k => Backoff(q, j, 0, 0).value);
    forall j | 0 <= j < k ensures Waited(w, p, limit, maxBody, j, waits[j]) {
      assert Judge(w, maxBody, limit, j) == Again(APIError(0, Network, true, 0, 0, 0));
    }
    assert Judge(w, maxBody, limit, k) == Again(APIError(0, Network, true, 0, 0, 0));
  }

  lemma FirstUnsafe(p: Policy, limit: nat) returns (k: nat)
    requires !SafeDelays(p, limit)
    ensures k + 1 < limit && CappedDelay(Normalize(p), k) < 2
    ensures forall j: nat :: j < k ==> CappedDelay(Normalize(p), j) >= 2
  {
    k := 0;
    while CappedDelay(Normalize(p), k) >= 2
      invariant k + 1 < limit
      invariant forall j: nat :: j < k ==> CappedDelay(Normalize(p), j) >= 2
      decreases limit - k
    {
      k := k + 1;
      assert k + 1 < limit by {
        var u: nat :| u + 1 < limit && CappedDelay(Normalize(p), u) < 2;
        assert u >= k;
      }
    }
  }

  lemma DefaultDelaysFit(limit: nat)
    requires limit <= 3
    ensures DelaysFit(DEFAULT_POLICY, limit)
  {
    assert Pow2(0) == 1 && Pow2(1) == 2;
    if limit >= 2 { assert Pow2(limit - 2) <= 2; }
  }

  /** The default policy sends at most three requests, never panics and waits at most twenty seconds. */
  lemma DefaultPolicyIsBounded(w: World, idempotent: bool, maxBody: int, outcome: Outcome, sent: nat, waits: seq<int>)
    requires IsRun(w, DEFAULT_POLICY, idempotent, maxBody, outcome, sent, waits)
    ensures sent <= 3 && |waits| <= 2 && outcome != Panicked
    ensures Sum(waits) <= 20_000_000_000
  {
    var limit := Limit(DEFAULT_POLICY, idempotent);
    DefaultDelaysFit(limit);
    TotalWait(w, DEFAULT_POLICY, idempotent, maxBody, outcome, sent, waits);
    assert Max(4 * DEFAULT_POLICY.maxWait, 5 * DEFAULT_POLICY.maxDelay) == 40 * SECOND;
  }

  lemma {:induction false} Pow2Add(j: nat, k: nat)
    ensures Pow2(j + k) == Pow2(j) * Pow2(k)
  {
    if k > 0 {
      Pow2Add(j, k - 1);
    }
  }

  lemma Pow2Of34()
    ensures Pow2(34) == 0x4_0000_0000
  {
    assert Pow2(4) == 16;
    Pow2Add(5, 5);
    Pow2Add(10, 10);
    Pow2Add(20, 10);
    Pow2Add(30, 4);
  }

  /** With the default base delay the 36th retry overflows: its capped delay is negative. */
  lemma DefaultDelayOverflows()
    ensures CappedDelay(DEFAULT_POLICY, 35) < 0
    ensures forall k :: 0 <= k < 35 ==> CappedDelay(DEFAULT_POLICY, k) >= 2
  {
    Pow2Of34();
    assert Pow2(35) == 2 * Pow2(34);
    forall k: nat | k < 35 ensures CappedDelay(DEFAULT_POLICY, k) >= 2 {
      Pow2Monotone(k, 34);
      TimesMonotone(DEFAULT_POLICY.baseDelay, Pow2(k), 0x4_0000_0000);
      TimesMonotone(DEFAULT_POLICY.baseDelay, 1, Pow2(k));
      WrapInRange(DEFAULT_POLICY.baseDelay * Pow2(k));
    }
  }
}
