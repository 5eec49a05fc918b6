/**
 * `fetchWithRetry`: run one upstream call; on a connection reset, a
 * connection timeout or an HTTP 429 answer, wait RETRY_DELAY * 2^retryCount
 * milliseconds and try again, at most MAX_RETRIES times; any other failure,
 * or a retryable one once the retries are used up, is thrown to the caller.
 * The whale-pool indexer and the wallet-holdings indexer carry identical
 * copies of this function.
 */
module Retry {
  import opened Wrappers

  const MAX_RETRIES: nat := 3
  const RETRY_DELAY: nat := 5000  // milliseconds

  /** Why one call of an upstream operation failed. */
  datatype FetchError =
    | ConnectionReset          // err.code == 'ECONNRESET'
    | ConnectionTimedOut       // err.code == 'ETIMEDOUT'
    | HttpStatus(status: int)  // err.response.status
    | OtherError               // a malformed response, a thrown TypeError, ...

  /** The outcome of one call. */
  datatype Attempt<T> = Succeeded(value: T) | Failed(error: FetchError)

  /** An upstream operation seen as an oracle: `op(k)` is what its call number k (from 0) yields. */
  type Operation<T> = nat -> Attempt<T>

  predicate IsRetryable(e: FetchError) {
    e.ConnectionReset? || e.ConnectionTimedOut? || (e.HttpStatus? && e.status == 429)
  }

  function Pow2(k: nat): nat {
    if k == 0 then 1 else 2 * Pow2(k - 1)
  }

  /** The wait before retry number retryCount + 1: 5000 * 2^retryCount milliseconds. */
  function Backoff(retryCount: nat): nat {
    RETRY_DELAY * Pow2(retryCount)
  }

  /** What a retried fetch hands back: its result and the waits it requested, in order. */
  datatype Fetched<T> = Fetched(result: Result<T, FetchError>, waits: seq<nat>)

  /** The recursive definition, call by call, starting at retry counter `retryCount`. */
  function RetryFrom<T>(op: Operation<T>, retryCount: nat): Fetched<T>
    requires retryCount <= MAX_RETRIES
    decreases MAX_RETRIES - retryCount
  {
    match op(retryCount)
    case Succeeded(v) => Fetched(Success(v), [])
    case Failed(e) =>
      if retryCount < MAX_RETRIES && IsRetryable(e) then
        var rest := RetryFrom(op, retryCount + 1);
        Fetched(rest.result, [Backoff(retryCount)] + rest.waits)
      else
        Fetched(Failure(e), [])
  }

  /** A top-level call `fetchWithRetry(operation, name)` (retry counter 0). */
  function Fetch<T>(op: Operation<T>): Fetched<T> {
    RetryFrom(op, 0)
  }

  /** One retry: a retryable failure before the last retry defers to the next call after one wait. */
  lemma RetryStep<T>(op: Operation<T>, k: nat)
    requires k < MAX_RETRIES && op(k).Failed? && IsRetryable(op(k).error)
    ensures RetryFrom(op, k).result == RetryFrom(op, k + 1).result
    ensures RetryFrom(op, k).waits == [Backoff(k)] + RetryFrom(op, k + 1).waits
  {
  }

  /**
   * The waits of the retry loop: before retry k + i it waited Backoff(k + i),
   * each of those calls failed with a retryable error, and there are no more
   * than MAX_RETRIES - k of them.
   */
  lemma {:induction false} RetryWaitsCharacterized<T>(op: Operation<T>, k: nat)
    requires k <= MAX_RETRIES
    ensures k + |RetryFrom(op, k).waits| <= MAX_RETRIES
    ensures forall i :: 0 <= i < |RetryFrom(op, k).waits| ==>
      RetryFrom(op, k).waits[i] == Backoff(k + i) && op(k + i).Failed? && IsRetryable(op(k + i).error)
    decreases MAX_RETRIES - k
  {
    if op(k).Failed? && k < MAX_RETRIES && IsRetryable(op(k).error) {
      RetryWaitsCharacterized(op, k + 1);
      RetryStep(op, k);
    }
    forall i | 0 <= i < |RetryFrom(op, k).waits| {
      RetryWaitAt(op, k, i);
    }
  }

  /** Wait number i of the retry loop started at counter k. */
  lemma {:induction false} RetryWaitAt<T>(op: Operation<T>, k: nat, i: nat)
    requires k <= MAX_RETRIES && i < |RetryFrom(op, k).waits|
    ensures RetryFrom(op, k).waits[i] == Backoff(k + i)
    ensures op(k + i).Failed? && IsRetryable(op(k + i).error)
    decreases i
  {
    assert op(k).Failed? && k < MAX_RETRIES && IsRetryable(op(k).error);
    RetryStep(op, k);
    if i > 0 {
      RetryWaitAt(op, k + 1, i - 1);
      assert k + 1 + (i - 1) == k + i;
    }
  }

  /**
   * The result of the retry loop is that of its last call, the one after the
   * waits: a success is returned as is, and a failure is thrown only when it
   * is not retryable or the retries are used up.
   */
  lemma {:induction false} RetryResultCharacterized<T>(op: Operation<T>, k: nat)
    requires k <= MAX_RETRIES
    ensures var f := RetryFrom(op, k); var last := op(k + |f.waits|);
      && (f.result.Success? <==> last.Succeeded?)
      && (f.result.Success? ==> f.result.value == last.value)
      && (f.result.Failure? ==> f.result.error == last.error)
      && (f.result.Failure? ==> !IsRetryable(last.error) || k + |f.waits| == MAX_RETRIES)
    decreases MAX_RETRIES - k
  {
    if op(k).Failed? && k < MAX_RETRIES && IsRetryable(op(k).error) {
      RetryResultCharacterized(op, k + 1);
      RetryStep(op, k);
      assert k + |RetryFrom(op, k).waits| == k + 1 + |RetryFrom(op, k + 1).waits|;
    }
  }

  /** The waits of a top-level fetch are a prefix of 5 s, 10 s, 20 s; so at most four calls happen. */
  lemma WaitsFollowSchedule<T>(op: Operation<T>)
    ensures Fetch(op).waits <= [5000, 10000, 20000]
    ensures |Fetch(op).waits| + 1 <= MAX_RETRIES + 1
  {
    RetryWaitsCharacterized(op, 0);
    var w := Fetch(op).waits;
    assert Backoff(0) == 5000 && Backoff(1) == 10000 && Backoff(2) == 20000;
    assert w == [5000, 10000, 20000][..|w|];
  }

  /** Every back-off is at least RETRY_DELAY, and doubles from one retry to the next. */
  lemma {:induction false} BackoffAtLeastRetryDelay(k: nat)
    ensures Backoff(k) >= RETRY_DELAY
    ensures Backoff(k + 1) == 2 * Backoff(k)
  {
    if k > 0 {
      BackoffAtLeastRetryDelay(k - 1);
    }
  }

  /** A non-retryable error on the first call is thrown at once, with no wait. */
  lemma {:induction false} NonRetryableFailsImmediately<T>(op: Operation<T>, e: FetchError)
    requires op(0) == Failed(e) && !IsRetryable(e)
    ensures Fetch(op) == Fetched(Failure(e), [])
  {
  }

  /** A first call that succeeds is returned at once, with no wait. */
  lemma FirstCallSucceeds<T>(op: Operation<T>, v: T)
    requires op(0) == Succeeded(v)
    ensures Fetch(op) == Fetched(Success(v), [])
  {
  }

  /**
   * Two timeouts and then a success: the success value is returned after
   * exactly two waits of 5 and 10 seconds.
   */
  lemma TwoTimeoutsThenSuccess<T>(op: Operation<T>, v: T)
    requires op(0) == Failed(ConnectionTimedOut) && op(1) == Failed(ConnectionTimedOut)
    requires op(2) == Succeeded(v)
    ensures Fetch(op) == Fetched(Success(v), [5000, 10000])
  {
    assert RetryFrom(op, 2) == Fetched(Success(v), []);
    assert RetryFrom(op, 1) == Fetched(Success(v), [10000]);
  }

  /** Four rate-limit rejections in a row: the fourth one is thrown after three waits. */
  lemma RateLimitedFourTimes<T>(op: Operation<T>)
    requires forall k :: 0 <= k <= 3 ==> op(k) == Failed(HttpStatus(429))
    ensures Fetch(op) == Fetched(Failure(HttpStatus(429)), [5000, 10000, 20000])
  {
    assert op(3) == Failed(HttpStatus(429));
    assert RetryFrom(op, 3) == Fetched(Failure(HttpStatus(429)), []);
    assert op(2) == Failed(HttpStatus(429));
    assert RetryFrom(op, 2) == Fetched(Failure(HttpStatus(429)), [20000]);
    assert op(1) == Failed(HttpStatus(429));
    assert RetryFrom(op, 1) == Fetched(Failure(HttpStatus(429)), [10000, 20000]);
    assert op(0) == Failed(HttpStatus(429));
  }

  /** The loop's exit: the call whose outcome is final ends the fetch with it. */
  lemma RetryStops<T>(op: Operation<T>, k: nat, waits: seq<nat>)
    requires k <= MAX_RETRIES
    requires op(k).Succeeded? || !(k < MAX_RETRIES && IsRetryable(op(k).error))
    ensures Fetched(RetryFrom(op, k).result, waits + RetryFrom(op, k).waits) ==
      Fetched(if op(k).Succeeded? then Success(op(k).value) else Failure(op(k).error), waits)
  {
    assert waits + [] == waits;
  }

  /** The loop's step: a retried call adds its back-off to the waits and hands over to the next call. */
  lemma RetryContinues<T>(op: Operation<T>, k: nat, waits: seq<nat>)
    requires k < MAX_RETRIES && op(k).Failed? && IsRetryable(op(k).error)
    ensures Fetched(RetryFrom(op, k).result, waits + RetryFrom(op, k).waits) ==
      Fetched(RetryFrom(op, k + 1).result, (waits + [Backoff(k)]) + RetryFrom(op, k + 1).waits)
  {
    RetryStep(op, k);
    assert waits + ([Backoff(k)] + RetryFrom(op, k + 1).waits) == (waits + [Backoff(k)]) + RetryFrom(op, k + 1).waits;
  }

  /**
   * `fetchWithRetry(fn, name)`: call the operation; on a retryable failure
   * with retries left, wait and call it again with the counter raised (the
   * source's tail call, as a loop). Returns the result and the waits it
   * requested, in order.
   */
  method FetchWithRetry<T>(op: Operation<T>) returns (result: Result<T, FetchError>, waits: seq<nat>)
    ensures Fetched(result, waits) == Fetch(op)
    ensures |waits| <= MAX_RETRIES
    ensures forall i :: 0 <= i < |waits| ==> waits[i] == Backoff(i)
  {
    var retryCount := 0;
    waits := [];
    while true
      invariant retryCount <= MAX_RETRIES && |waits| == retryCount
      invariant forall i :: 0 <= i < |waits| ==> waits[i] == Backoff(i)
      invariant Fetch(op) == Fetched(RetryFrom(op, retryCount).result, waits + RetryFrom(op, retryCount).waits)
      decreases MAX_RETRIES - retryCount
    {
      var outcome := op(retryCount);
      if outcome.Succeeded? {
        RetryStops(op, retryCount, waits);
        return Success(outcome.value), waits;
      } else if !(retryCount < MAX_RETRIES && IsRetryable(outcome.error)) {
        RetryStops(op, retryCount, waits);
        return Failure(outcome.error), waits;  // thrown to the caller
      }
      var delay := Backoff(retryCount);  // await sleep(delay)
      RetryContinues(op, retryCount, waits);
      waits := waits + [delay];
      retryCount := retryCount + 1;
    }
  }
}
